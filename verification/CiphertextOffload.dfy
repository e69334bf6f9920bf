/** A ciphertext as two residue polynomials that may be parked in host memory. Offloading frees the
    device limbs and keeps a host snapshot; everything observable about the ciphertext (limbs, level,
    metadata) is its Content, and every operation here is proved in terms of it. Its Record is what the
    cache's registry holds, and offload and reload move it as DeviceRecords says. */
module CiphertextOffload {
  import opened NumberTheory
  import opened RnsPolynomial
  import opened DeviceRecords
  import opened Options

  datatype RawCipherText = RawCipherText(
    numRes: int, sub0: seq<Limb>, sub1: seq<Limb>, moduli: seq<nat>,
    noiseLevel: int, noise: real, keyid: string, slots: int)

  datatype OffloadedState = OffloadedState(present: bool, raw: RawCipherText)

  const EMPTY_RAW := RawCipherText(0, [], [], [], 1, 0.0, "", 0)

  function SnapshotContent(raw: RawCipherText): Content {
    Content(raw.numRes - 1, raw.sub0, raw.sub1, [], raw.noiseLevel, raw.noise, raw.keyid, raw.slots)
  }

  class Ciphertext {
    const cc: Context
    const c0: RNSPoly
    const c1: RNSPoly
    var noiseLevel: int
    var noiseFactor: real
    var keyID: string
    var slots: int
    var state: OffloadedState

    ghost predicate Shape()
      reads this, c0, c1
    {
      c0 != c1 && c0.cc == c1.cc == cc && c0.Valid() && c1.Valid() && !c0.modUp && !c1.modUp
    }

    ghost predicate SnapshotOk(raw: RawCipherText) {
      && cc.TowersOk(raw.sub0) && cc.TowersOk(raw.sub1)
      && |raw.sub0| == |raw.sub1| == |raw.moduli| == raw.numRes
      && forall i :: 0 <= i < raw.numRes ==> raw.moduli[i] == cc.prime[i]
    }

    /** Not extended, the two polynomials level, and a complete snapshot while offloaded. */
    ghost predicate Valid()
      reads this, c0, c1
    {
      && Shape()
      && if state.present then SnapshotOk(state.raw) && c0.level == c1.level == -1
         else c0.level == c1.level
    }

    /** What is in device memory, and the snapshot if there is one. */
    ghost function Record(): Device
      reads this, c0, c1
      requires Valid()
    {
      Device(Content(c0.level, c0.Towers(), c1.Towers(), [], noiseLevel, noiseFactor, keyID, slots), c0.modUp,
             if state.present then Some(SnapshotContent(state.raw)) else None)
    }

    ghost function Observed(): Content
      reads this, c0, c1
      requires Valid()
    {
      Record().Contents()
    }

    constructor (cc: Context)
      requires cc.Valid()
      ensures this.cc == cc && Valid() && !state.present && fresh(c0) && fresh(c1)
    {
      this.cc := cc;
      c0 := new RNSPoly(cc);
      c1 := new RNSPoly(cc);
      noiseLevel, noiseFactor, keyID, slots := 1, 0.0, "", 0;
      state := OffloadedState(false, EMPTY_RAW);
    }

    /** Answered from the snapshot while offloaded, without forcing a reload. */
    function GetLevel(): (level: int)
      reads this, c0, c1
      requires Valid()
      ensures level == Observed().level
    {
      if state.present then state.raw.numRes - 1 else c0.level
    }

    method Load(raw: RawCipherText)
      requires Shape() && SnapshotOk(raw) && !state.present
      modifies this, c0, c1
      ensures Valid() && !state.present
      ensures Observed() == SnapshotContent(raw)
      ensures c0.Towers() == raw.sub0 && c1.Towers() == raw.sub1 && c0.level == c1.level == raw.numRes - 1
    {
      keyID := raw.keyid;
      c0.Load(raw.sub0, raw.moduli);
      c1.Load(raw.sub1, raw.moduli);
      noiseLevel := raw.noiseLevel;
      noiseFactor := raw.noise;
      slots := raw.slots;
    }

    method Store() returns (raw: RawCipherText)
      requires Valid() && !state.present
      ensures raw == RawCipherText(Observed().level + 1, Observed().towers0, Observed().towers1, [],
                                   noiseLevel, noiseFactor, keyID, slots)
    {
      var sub0 := c0.Store();
      var sub1 := c1.Store();
      raw := RawCipherText(c0.level + 1, sub0, sub1, [], noiseLevel, noiseFactor, keyID, slots);
    }

    /** Parks the limbs in host memory. Nothing observable changes. */
    method Offload()
      requires Valid()
      modifies this`state, c0, c1
      ensures Valid() && state.present
      ensures Observed() == old(Observed()) && Record() == OffloadedDevice(old(Record()))
      ensures !old(state.present) ==> c0.limb == [] && c1.limb == []
    {
      if state.present {
        return;
      }
      var raw := Store();
      var moduli := [];
      for i := 0 to raw.numRes
        invariant moduli == cc.prime[..i]
      {
        moduli := moduli + [cc.prime[i]];
      }
      c0.FreeGPU();
      c1.FreeGPU();
      state := OffloadedState(true, raw.(moduli := moduli));
    }

    /** Brings the limbs back. Nothing observable changes. */
    method Reload()
      requires Valid()
      modifies this, c0, c1
      ensures Valid() && !state.present
      ensures Observed() == old(Observed()) && Record() == ReloadedDevice(old(Record()))
    {
      if !state.present {
        return;
      }
      var raw := state.raw;
      state := state.(present := false);
      Load(raw);
      state := OffloadedState(false, EMPTY_RAW);
    }

    method EnsureResident()
      requires Valid()
      modifies this, c0, c1
      ensures Valid() && !state.present
      ensures Observed() == old(Observed()) && Record() == ReloadedDevice(old(Record()))
    {
      if state.present {
        Reload();
      }
    }

    // ---- The FIXEDAUTO tower operations, from whichever place the limbs are in ----

    /** On a resident ciphertext both polynomials are scaled. A parked one has no limbs to scale, and
        nobody brings them back here: only the metadata left in the object change. */
    method RaiseDegreeToLevel(target: int, scale: real)
      requires Valid() && 0 <= target <= Observed().level
      modifies this`noiseLevel, this`noiseFactor, c0, c1
      ensures Valid() && noiseLevel == old(noiseLevel) + 1 && noiseFactor == old(noiseFactor) * scale
      ensures old(state.present) ==> Observed() == old(Observed())
      ensures !old(state.present) ==>
              var v, w := old(Observed()), Observed();
              && w == v.(towers0 := w.towers0, towers1 := w.towers1,
                         noiseLevel := v.noiseLevel + 1, noiseFactor := v.noiseFactor * scale)
              && w.towers0 == ScaledTowers(cc, v.towers0, cc.prime[target])
              && w.towers1 == ScaledTowers(cc, v.towers1, cc.prime[target])
    {
      hide ScaledTowers, ScaledLimb;
      var q := cc.prime[target];
      var crtQ := Residues(q, GetLevel() + 1);
      c0.MultScalar(crtQ);
      c1.MultScalar(crtQ);
      noiseLevel := noiseLevel + 1;
      noiseFactor := noiseFactor * scale;
      if !state.present {
        TowersScaled(cc, old(c0.Towers()), c0.Towers(), crtQ, q);
        TowersScaled(cc, old(c1.Towers()), c1.Towers(), crtQ, q);
      }
    }

    /** The residues of an integer on the first towers. */
    method Residues(q: nat, numTowers: nat) returns (crtQ: seq<nat>)
      requires cc.Valid() && numTowers <= |cc.prime|
      ensures |crtQ| == numTowers && forall k :: 0 <= k < numTowers ==> crtQ[k] == q % cc.prime[k]
    {
      crtQ := [];
      for i := 0 to numTowers
        invariant |crtQ| == i && forall k :: 0 <= k < i ==> crtQ[k] == q % cc.prime[k]
      {
        crtQ := crtQ + [q % cc.prime[i]];
      }
    }

    method DropTowers(target: int)
      requires Valid() && 0 <= target
      modifies this, c0, c1
      ensures Valid() && !state.present
      ensures var v, w := old(Observed()), Observed();
              w == if v.level > target then v.(level := target, towers0 := v.towers0[..target + 1], towers1 := v.towers1[..target + 1])
                   else v
    {
      EnsureResident();
      if c0.level > target {
        c0.DropToLevel(target);
        c1.DropToLevel(target);
      }
    }

    method RescaleInternal(modReduceFactor: real)
      requires Valid() && Observed().level >= 0 && modReduceFactor != 0.0
      modifies this, c0, c1
      ensures Valid() && !state.present
      ensures var v, w := old(Observed()), Observed();
              && w == v.(level := v.level - 1, towers0 := w.towers0, towers1 := w.towers1,
                         noiseLevel := v.noiseLevel - 1, noiseFactor := v.noiseFactor / modReduceFactor)
              && IsRescaled(cc, v.towers0, w.towers0) && IsRescaled(cc, v.towers1, w.towers1)
    {
      EnsureResident();
      noiseFactor := noiseFactor / modReduceFactor;
      c0.Rescale();
      c1.Rescale();
      noiseLevel := noiseLevel - 1;
    }

    /** FIXEDAUTO, receiver of degree 1 above a degree-2 target: raise by the target's last prime, then
        drop. The rescale that every later product performs undoes it on the residues. Nothing in this
        branch makes the receiver resident first, so a parked one comes back, with its old degree, in
        the drop: the degree is raised exactly when the receiver was resident. */
    method AlignToDegreeTwo(target: int, scale: real)
      requires Valid() && 0 <= target < Observed().level
      modifies this, c0, c1
      ensures Valid() && !state.present && Observed().level == target
      ensures Observed().noiseLevel == old(Observed()).noiseLevel + 1 <==> !old(state.present)
      ensures old(state.present) ==>
              var v := old(Observed());
              Observed() == v.(level := target, towers0 := v.towers0[..target + 1], towers1 := v.towers1[..target + 1])
      ensures !old(state.present) ==>
              var v, w := old(Observed()), Observed();
              && w.noiseFactor == v.noiseFactor * scale
              && cc.TowersOk(w.towers0) && cc.TowersOk(w.towers1) && |w.towers0| == |w.towers1| == target + 1
              && (forall r :: IsRescaled(cc, w.towers0, r) ==> r == v.towers0[..target])
              && (forall r :: IsRescaled(cc, w.towers1, r) ==> r == v.towers1[..target])
    {
      ghost var v := Observed();
      RaiseDegreeToLevel(target, scale);
      ghost var resident := !state.present;
      DropTowers(target);
      ghost var w := Observed();
      if resident {
        forall r | IsRescaled(cc, w.towers0, r) ensures r == v.towers0[..target] {
          RaiseDropRescaleIsExact(cc, v.towers0, target, r);
        }
        forall r | IsRescaled(cc, w.towers1, r) ensures r == v.towers1[..target] {
          RaiseDropRescaleIsExact(cc, v.towers1, target, r);
        }
      }
    }
  }

  /** Limb by limb products with the residues of q are the towers times q. */
  lemma TowersScaled(cc: Context, v: seq<Limb>, w: seq<Limb>, crtQ: seq<nat>, q: nat)
    requires cc.Valid() && cc.TowersOk(v) && |w| == |v| <= |crtQ| && forall k :: 0 <= k < |v| ==> crtQ[k] == q % cc.prime[k]
    requires forall i :: 0 <= i < |v| ==> w[i] == ScaledLimb(v[i], crtQ[i], cc.prime[i])
    ensures w == ScaledTowers(cc, v, q)
  {
    hide ScaledLimb;
  }
}
