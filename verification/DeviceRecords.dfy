/** A device ciphertext as a record of what is in device memory and what is in host memory. Parking
    moves the limbs: the device side is freed and holds none, the snapshot holds them all. The class
    of CiphertextOffload is proved to move them as the functions here do, and the cache keeps these
    records in its registry. */
module DeviceRecords {
  import opened Options
  import RnsPolynomial

  type Limb = RnsPolynomial.Limb

  /** Limbs, level and metadata of a ciphertext. An extended one also has special limbs. */
  datatype Content = Content(level: int, towers0: seq<Limb>, towers1: seq<Limb>, special: seq<Limb>,
                       noiseLevel: int, noiseFactor: real, keyID: string, slots: int)

  /** `now` is what a kernel finds through the pointer, whether or not the limbs are there. */
  datatype Device = Device(now: Content, modUp: bool, snapshot: Option<Content>) {
    predicate Offloaded() { snapshot.Some? }

    /** What the ciphertext stands for, wherever its limbs are. */
    function Contents(): Content { if snapshot.Some? then snapshot.value else now }

    /** While a ciphertext is parked its limbs are nowhere else. An extended one is never parked. */
    predicate Valid() { snapshot.Some? ==> now == Freed(snapshot.value) && !modUp }
  }

  const NO_DEVICE: Device := Device(Content(-1, [], [], [], 1, 0.0, "", 0), false, None)

  /** Device memory after `freeGPU`: no limbs, level -1, the metadata still in the object. */
  function Freed(v: Content): Content { v.(level := -1, towers0 := [], towers1 := []) }

  function OffloadedDevice(d: Device): Device {
    if d.Offloaded() then d else Device(Freed(d.now), d.modUp, Some(d.now))
  }

  function ReloadedDevice(d: Device): Device {
    if d.Offloaded() then Device(d.snapshot.value, d.modUp, None) else d
  }

  /** Neither direction changes what the ciphertext stands for, and together they restore it. */
  lemma OffloadRoundTrip(d: Device)
    requires d.Valid() && !d.modUp
    ensures OffloadedDevice(d).Valid() && OffloadedDevice(d).Offloaded()
    ensures OffloadedDevice(d).Contents() == d.Contents() && OffloadedDevice(d).modUp == d.modUp
    ensures var free := OffloadedDevice(d).now; free.level == -1 && free.towers0 == free.towers1 == []
    ensures ReloadedDevice(OffloadedDevice(d)) == ReloadedDevice(d)
  {
  }

  lemma ReloadRestores(d: Device)
    requires d.Valid()
    ensures ReloadedDevice(d).Valid() && !ReloadedDevice(d).Offloaded()
    ensures ReloadedDevice(d).Contents() == ReloadedDevice(d).now == d.Contents() && ReloadedDevice(d).modUp == d.modUp
    ensures !d.Offloaded() ==> ReloadedDevice(d) == d
  {
  }

  /** Reading through the pointer is right exactly while the limbs are on the device. */
  lemma ReadNeedsResidency(d: Device)
    requires d.Valid() && d.Contents().towers0 != []
    ensures d.now == d.Contents() <==> !d.Offloaded()
  {
    assert Freed(d.Contents()).towers0 == [];
  }
}
