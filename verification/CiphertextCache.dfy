/** The ciphertext cache as functions on its state. Unlike a plaintext, an evicted ciphertext stays
    registered: its limbs move to host memory and come back when it is next fetched. The registry keeps
    the records of DeviceRecords, which the class of CiphertextOffload is proved to follow. */
module CiphertextCache {
  import opened Sequences
  import opened Recency
  import opened Options
  import opened DeviceRecords

  /** A ciphertext object of the API: its host copy, and its device handle while loaded. */
  datatype Cipher = Cipher(cpu: Content, gpu: Handle, loaded: bool)

  datatype State = State(
    budget: nat, resident: nat,
    /** Entries are marked with whether the ciphertext is resident. */
    cache: map<Handle, Entry<bool>>,
    lru: seq<Handle>, pinned: set<Handle>,
    device: map<Handle, Device>,
    objects: map<Id, Cipher>)

  const EMPTY: State := State(SIZE_MAX, 0, map[], [], {}, map[], map[])

  // ---- Invariant ----

  ghost predicate Bookkept(s: State) {
    && NoDuplicates(s.lru)
    && (forall h :: h in s.lru <==> h in s.cache && s.cache[h].mark)
    && s.resident == SumBytes(s.lru, s.cache)
    && s.pinned <= s.cache.Keys
    && s.device.Keys == s.cache.Keys
  }

  /** The accounting never goes stale, and what is parked is in the plain basis with its limbs in the
      snapshot only. */
  ghost predicate Parked(s: State) {
    && (forall h :: h in s.cache && h in s.device ==> s.device[h].Offloaded() == !s.cache[h].mark)
    && (forall h :: h in s.device ==> s.device[h].Valid())
  }

  ghost predicate Owned(s: State) {
    && (forall o :: o in s.objects && s.objects[o].loaded ==> s.objects[o].gpu in s.device)
    && (forall o, p :: o in s.objects && p in s.objects && o != p && s.objects[o].loaded && s.objects[p].loaded ==> s.objects[o].gpu != s.objects[p].gpu)
    && (forall o :: o in s.objects && !s.objects[o].loaded ==> s.objects[o].gpu == 0)
  }

  ghost predicate HandlesBelow(s: State, next: Handle) {
    forall h :: h in s.cache ==> 0 < h < next
  }

  ghost predicate Valid(s: State, next: Handle) {
    Bookkept(s) && Parked(s) && Owned(s) && HandlesBelow(s, next)
  }

  /** What the API shows of a ciphertext: its contents (the device copy while loaded, else the host
      one), whether it is loaded, and whether it is in the extended basis. */
  datatype Seen = Seen(content: Content, loaded: bool, extended: bool)

  function SeenAs(s: State, o: Id): Seen
    requires o in s.objects
  {
    var d := DeviceOf(s, s.objects[o].gpu);
    if s.objects[o].loaded then Seen(d.Contents(), true, d.modUp) else Seen(s.objects[o].cpu, false, false)
  }

  function DeviceOf(s: State, h: Handle): Device {
    if h in s.device then s.device[h] else NO_DEVICE
  }

  function View(s: State): map<Id, Seen> {
    map o | o in s.objects :: SeenAs(s, o)
  }

  ghost predicate SameView(s: State, t: State) { View(s) == View(t) }

  // ---- What the operations do ----

  function Untracked(s: State, h: Handle): State {
    if h !in s.cache then s
    else
      var t := if s.cache[h].mark then s.(resident := Minus(s.resident, s.cache[h].bytes), lru := Without(s.lru, h)) else s;
      t.(pinned := t.pinned - {h}, cache := t.cache - {h})
  }

  function Evicted(s: State, h: Handle): State {
    var t := Untracked(s, h);
    t.(device := t.device - {h})
  }

  function Registered(s: State, h: Handle, content: Content, modUp: bool, bytes: nat): State {
    s.(resident := s.resident + bytes, cache := s.cache[h := Entry(bytes, true)], lru := [h] + s.lru,
       device := s.device[h := Device(content, modUp, None)])
  }

  function Touched(s: State, h: Handle, bytes: nat): State {
    if h !in s.cache then s
    else if s.cache[h].mark then
      s.(resident := Minus(s.resident, s.cache[h].bytes) + bytes, lru := [h] + Without(s.lru, h), cache := s.cache[h := Entry(bytes, true)])
    else
      s.(resident := s.resident + bytes, lru := [h] + s.lru, cache := s.cache[h := Entry(bytes, true)])
  }

  function MarkedOffloaded(s: State, h: Handle): State {
    if h !in s.cache || !s.cache[h].mark then s
    else
      s.(resident := Minus(s.resident, s.cache[h].bytes), lru := Without(s.lru, h), cache := s.cache[h := Entry(s.cache[h].bytes, false)])
  }

  /** The device ciphertext's own offload and reload. */
  function SetOffloaded(s: State, h: Handle, offloaded: bool): State {
    if h in s.device then
      s.(device := s.device[h := if offloaded then OffloadedDevice(s.device[h]) else ReloadedDevice(s.device[h])])
    else s
  }

  /** `OffloadCiphertext`, also the effect of evicting a ciphertext that can be. */
  function Offloaded(s: State, h: Handle): State {
    if h in s.device then MarkedOffloaded(SetOffloaded(s, h, true), h) else s
  }

  function Reloaded(s: State, h: Handle, bytes: nat): State {
    if h in s.device && s.device[h].Offloaded() then Touched(SetOffloaded(s, h, false), h, bytes) else s
  }

  /** `GetDeviceCiphertext`: reload if parked, then touch. */
  function Fetched(s: State, h: Handle, bytes: nat): State {
    Touched(if h in s.device && s.device[h].Offloaded() then SetOffloaded(s, h, false) else s, h, bytes)
  }

  function MarksAfter(cache: map<Handle, Entry<bool>>, keep: seq<Handle>): map<Handle, Entry<bool>> {
    map h | h in cache :: if cache[h].mark && h !in keep then Entry(cache[h].bytes, false) else cache[h]
  }

  function DevicesAfter(device: map<Handle, Device>, cache: map<Handle, Entry<bool>>, keep: seq<Handle>): map<Handle, Device> {
    map h | h in device :: if h in cache && cache[h].mark && h !in keep then OffloadedDevice(device[h]) else device[h]
  }

  /** Every resident handle outside `keep` parked. */
  function ParkTo(s: State, keep: seq<Handle>): State {
    s.(resident := SumBytes(keep, s.cache), cache := MarksAfter(s.cache, keep), lru := keep,
       device := DevicesAfter(s.device, s.cache, keep))
  }

  function Extended(s: State): set<Handle> { set h | h in s.device && s.device[h].modUp }

  function Exempt(s: State, protect: Handle): set<Handle> { s.pinned + {protect} + Extended(s) }

  function Enforced(s: State, protect: Handle): State
  {
    if s.budget == SIZE_MAX || s.resident <= s.budget then s
    else ParkTo(s, Survivors(s.lru, s.cache, Exempt(s, protect), s.resident, s.budget))
  }

  // ---- The invariant is kept and no value changes ----

  lemma BookkeptUntracked(s: State, h: Handle)
    requires Bookkept(s)
    ensures Bookkept(Evicted(s, h)) && h !in Evicted(s, h).cache
    ensures h in s.cache && s.cache[h].mark ==> s.cache[h].bytes <= s.resident
  {
    if h in s.cache && s.cache[h].mark {
      Leave(s.lru, s.cache, h, s.cache - {h});
    } else {
      SumAgrees(s.lru, s.cache, s.cache - {h});
    }
  }

  lemma CountedUntracked(s: State, h: Handle)
    requires Bookkept(s) && h in s.cache
    ensures var t := Untracked(s, h);
      && t.resident == s.resident - (if s.cache[h].mark then s.cache[h].bytes else 0)
      && Counted(t.lru, t.cache, t.resident) && h !in t.lru
  {
    if s.cache[h].mark {
      CountedLeave(s.lru, s.cache, s.resident, h);
    } else {
      SumAgrees(s.lru, s.cache, s.cache - {h});
    }
  }

  lemma BookkeptRegistered(s: State, h: Handle, content: Content, modUp: bool, bytes: nat)
    requires Bookkept(s) && h !in s.cache
    ensures var t := Registered(s, h, content, modUp, bytes);
      && Bookkept(t) && t.resident == s.resident + bytes && t.cache[h] == Entry(bytes, true)
      && |t.lru| > 0 && t.lru[0] == h && t.lru[1..] == s.lru
  {
    PushFront(s.lru, s.cache, h, Entry(bytes, true));
    hide NoDuplicates;
  }

  lemma BookkeptTouched(s: State, h: Handle, bytes: nat)
    requires Bookkept(s)
    ensures Bookkept(Touched(s, h, bytes))
    ensures h in s.cache && s.cache[h].mark ==> s.cache[h].bytes <= s.resident
  {
    if h in s.cache {
      if s.cache[h].mark {
        Leave(s.lru, s.cache, h, s.cache);
        PushFront(Without(s.lru, h), s.cache, h, Entry(bytes, true));
      } else {
        PushFront(s.lru, s.cache, h, Entry(bytes, true));
      }
      hide NoDuplicates, SumBytes;
    }
  }

  /** A touched ciphertext is resident, with its new size, and the most recent one; the others keep their
      order. */
  lemma TouchedFirst(s: State, h: Handle, bytes: nat)
    requires Bookkept(s) && h in s.cache
    ensures var t := Touched(s, h, bytes);
      h in t.cache && t.cache[h] == Entry(bytes, true) && |t.lru| > 0 && t.lru[0] == h && t.lru[1..] == Without(s.lru, h)
  {
    if !s.cache[h].mark {
      NotThere(s.lru, h);
    }
    hide NoDuplicates, SumBytes, Without;
  }

  lemma BookkeptMarked(s: State, h: Handle)
    requires Bookkept(s)
    ensures Bookkept(MarkedOffloaded(s, h)) && h !in MarkedOffloaded(s, h).lru
    ensures h in s.cache && s.cache[h].mark ==> s.cache[h].bytes <= s.resident
  {
    hide NoDuplicates, SumBytes;
    if h in s.cache && s.cache[h].mark {
      Leave(s.lru, s.cache, h, s.cache[h := Entry(s.cache[h].bytes, false)]);
    }
  }

  /** Same objects, same registered ciphertexts with the same contents. */
  ghost predicate SameDevices(s: State, t: State) {
    && t.objects == s.objects && t.device.Keys == s.device.Keys && t.cache.Keys == s.cache.Keys
    && forall h :: h in s.device ==> t.device[h].Contents() == s.device[h].Contents() && t.device[h].modUp == s.device[h].modUp
  }

  lemma ValidFromParts(s: State, t: State, next: Handle)
    requires Valid(s, next) && SameDevices(s, t) && Bookkept(t) && Parked(t)
    ensures Valid(t, next) && SameView(s, t)
  {
    hide Bookkept, Parked;
  }

  /** Only what is registered and tracked under h differs, and it stands for the same ciphertext. */
  lemma OneDevice(s: State, t: State, h: Handle, d: Device, e: Entry<bool>)
    requires Parked(s) && s.device.Keys == s.cache.Keys && h in s.device && t.objects == s.objects
    requires t.device == s.device[h := d] && t.cache == s.cache[h := e]
    requires d.Valid() && d.Contents() == s.device[h].Contents() && d.modUp == s.device[h].modUp && d.Offloaded() == !e.mark
    ensures SameDevices(s, t) && Parked(t)
  {
    hide Device.Valid, Device.Contents, Device.Offloaded;
  }

  lemma FetchedForm(s: State, h: Handle, bytes: nat)
    requires s.device.Keys == s.cache.Keys && h in s.device
    ensures var t := Fetched(s, h, bytes);
      t.objects == s.objects && t.device == s.device[h := ReloadedDevice(s.device[h])] && t.cache == s.cache[h := Entry(bytes, true)]
  {
    hide Without;
  }

  lemma OffloadedForm(s: State, h: Handle)
    requires s.device.Keys == s.cache.Keys && h in s.device
    ensures var t := Offloaded(s, h);
      t.objects == s.objects && t.device == s.device[h := OffloadedDevice(s.device[h])] && t.cache == s.cache[h := Entry(s.cache[h].bytes, false)]
  {
    hide Without, OffloadedDevice;
  }

  /** Fetching and parking move limbs and accounting and nothing else. */
  lemma FetchedDevices(s: State, h: Handle, bytes: nat)
    requires Bookkept(s) && Parked(s)
    ensures SameDevices(s, Fetched(s, h, bytes)) && Parked(Fetched(s, h, bytes))
    ensures h in s.device ==> h in Fetched(s, h, bytes).device && !Fetched(s, h, bytes).device[h].Offloaded()
  {
    var t := Fetched(s, h, bytes);
    assert s.device.Keys == s.cache.Keys && (h in s.device ==> s.device[h].Valid());
    if h in s.device {
      FetchedForm(s, h, bytes);
      ReloadRestores(s.device[h]);
      hide *;
      OneDevice(s, t, h, ReloadedDevice(s.device[h]), Entry(bytes, true));
    } else {
      hide Bookkept, Parked;
      Untouched(s);
    }
  }

  lemma Untouched(s: State)
    requires Parked(s)
    ensures SameDevices(s, s)
  {
  }

  /** A fetch parks nothing: what is resident stays resident, and the fetched ciphertext joins it. */
  lemma FetchedStays(s: State, h: Handle, bytes: nat)
    ensures var t := Fetched(s, h, bytes);
      && t.objects == s.objects && t.device.Keys == s.device.Keys
      && (forall k :: k in s.device && !s.device[k].Offloaded() ==> !t.device[k].Offloaded())
      && (h in s.device ==> !t.device[h].Offloaded())
  {
    hide Without;
  }

  lemma OffloadedDevices(s: State, h: Handle)
    requires Bookkept(s) && Parked(s) && (h in s.device ==> !s.device[h].modUp)
    ensures SameDevices(s, Offloaded(s, h)) && Parked(Offloaded(s, h))
    ensures h in s.device ==> h in Offloaded(s, h).device && Offloaded(s, h).device[h].Offloaded()
  {
    var t := Offloaded(s, h);
    assert s.device.Keys == s.cache.Keys && (h in s.device ==> s.device[h].Valid());
    if h in s.device {
      OffloadedForm(s, h);
      OffloadRoundTrip(s.device[h]);
      hide *;
      OneDevice(s, t, h, OffloadedDevice(s.device[h]), Entry(s.cache[h].bytes, false));
    } else {
      hide Bookkept, Parked;
      Untouched(s);
    }
  }

  lemma ParkedDevices(s: State, keep: seq<Handle>)
    requires Bookkept(s) && Parked(s) && (forall h :: h in keep ==> h in s.lru)
    requires forall h :: h in s.lru && h in Extended(s) ==> h in keep
    ensures SameDevices(s, ParkTo(s, keep)) && Parked(ParkTo(s, keep))
  {
    var t := ParkTo(s, keep);
    forall h | h in s.device
      ensures h in t.device && t.device[h].Valid() && t.device[h].Contents() == s.device[h].Contents() && t.device[h].modUp == s.device[h].modUp
      ensures h in t.cache && t.device[h].Offloaded() == !t.cache[h].mark
    {
      ParkedDevice(s, keep, h);
    }
    assert t.objects == s.objects && t.device.Keys == s.device.Keys && t.cache.Keys == s.cache.Keys;
    hide Bookkept, ParkTo, Extended, Device.Valid, Device.Contents, Device.Offloaded;
  }

  lemma ParkedDevice(s: State, keep: seq<Handle>, h: Handle)
    requires Bookkept(s) && Parked(s) && h in s.device && (forall k :: k in keep ==> k in s.lru)
    requires h in s.lru && h in Extended(s) ==> h in keep
    ensures var t := ParkTo(s, keep);
      && h in t.device && t.device[h].Valid() && t.device[h].Contents() == s.device[h].Contents() && t.device[h].modUp == s.device[h].modUp
      && h in t.cache && t.device[h].Offloaded() == !t.cache[h].mark
  {
    hide NoDuplicates, SumBytes;
  }

  lemma BookkeptSetOffloaded(s: State, h: Handle, offloaded: bool)
    requires Bookkept(s)
    ensures Bookkept(SetOffloaded(s, h, offloaded))
  {
    hide NoDuplicates, SumBytes;
  }

  lemma BookkeptParkTo(s: State, keep: seq<Handle>)
    requires Bookkept(s) && NoDuplicates(keep) && (forall h :: h in keep ==> h in s.lru) && (forall h :: h in keep ==> h in s.cache)
    ensures Bookkept(ParkTo(s, keep))
  {
    SumAgrees(keep, s.cache, ParkTo(s, keep).cache);
    hide NoDuplicates, SumBytes;
  }

  lemma ValidFetched(s: State, next: Handle, h: Handle, bytes: nat)
    requires Valid(s, next)
    ensures var t := Fetched(s, h, bytes);
      && Valid(t, next) && SameView(s, t) && SameDevices(s, t)
      && (h in s.device ==> h in t.device && !t.device[h].Offloaded())
  {
    hide Bookkept, Parked, Owned, HandlesBelow, SameDevices, SameView, Touched, SetOffloaded;
    BookkeptSetOffloaded(s, h, false);
    BookkeptTouched(if h in s.device && s.device[h].Offloaded() then SetOffloaded(s, h, false) else s, h, bytes);
    FetchedDevices(s, h, bytes);
    ValidFromParts(s, Fetched(s, h, bytes), next);
  }

  lemma ValidReloaded(s: State, next: Handle, h: Handle, bytes: nat)
    requires Valid(s, next)
    ensures Valid(Reloaded(s, h, bytes), next) && SameView(s, Reloaded(s, h, bytes)) && SameDevices(s, Reloaded(s, h, bytes))
    ensures h in s.device ==> !Reloaded(s, h, bytes).device[h].Offloaded()
  {
    if h in s.device && s.device[h].Offloaded() {
      ValidFetched(s, next, h, bytes);
      hide Valid;
    } else {
      hide Bookkept, Parked, HandlesBelow;
    }
  }

  lemma ValidOffloaded(s: State, next: Handle, h: Handle)
    requires Valid(s, next) && (h in s.device ==> !s.device[h].modUp)
    ensures Valid(Offloaded(s, h), next) && SameView(s, Offloaded(s, h)) && SameDevices(s, Offloaded(s, h))
    ensures h in s.device ==> h in Offloaded(s, h).device && Offloaded(s, h).device[h].Offloaded()
  {
    hide Bookkept, Parked, Owned, HandlesBelow, SameDevices, SameView, MarkedOffloaded, SetOffloaded;
    BookkeptSetOffloaded(s, h, true);
    BookkeptMarked(SetOffloaded(s, h, true), h);
    OffloadedDevices(s, h);
    ValidFromParts(s, Offloaded(s, h), next);
  }

  lemma ValidParkTo(s: State, next: Handle, keep: seq<Handle>)
    requires Valid(s, next) && NoDuplicates(keep) && (forall h :: h in keep ==> h in s.lru) && (forall h :: h in keep ==> h in s.cache)
    requires forall h :: h in s.lru && h in Extended(s) ==> h in keep
    ensures Valid(ParkTo(s, keep), next) && SameView(s, ParkTo(s, keep)) && SameDevices(s, ParkTo(s, keep))
  {
    hide Bookkept, Parked, Owned, HandlesBelow, SameDevices, SameView, ParkTo;
    BookkeptParkTo(s, keep);
    ParkedDevices(s, keep);
    ValidFromParts(s, ParkTo(s, keep), next);
  }

  lemma ValidEnforced(s: State, next: Handle, protect: Handle)
    requires Valid(s, next)
    ensures Valid(Enforced(s, protect), next) && SameView(s, Enforced(s, protect)) && SameDevices(s, Enforced(s, protect))
  {
    if s.budget != SIZE_MAX && s.resident > s.budget {
      SurvivorsDistinct(s.lru, s.cache, Exempt(s, protect), s.resident, s.budget);
      var keep := Survivors(s.lru, s.cache, Exempt(s, protect), s.resident, s.budget);
      hide Survivors, Parked, Owned, HandlesBelow, NoDuplicates, SumBytes;
      ValidParkTo(s, next, keep);
    } else {
      hide Bookkept, Parked, HandlesBelow;
    }
  }

  /** What is protected, pinned or in the extended basis stays resident. */
  lemma ExemptStaysResident(s: State, protect: Handle, h: Handle)
    requires Bookkept(s) && Parked(s) && h in s.lru && h in Exempt(s, protect)
    ensures var t := Enforced(s, protect);
      h in t.lru && h in t.device && h in s.device && t.device[h] == s.device[h]
  {
    hide NoDuplicates, SumBytes;
  }
  // ---- The life of a ciphertext ----

  ghost predicate Good(s: State, next: Handle) { Valid(s, next) && next > 0 }

  lemma GoodLater(s: State, next: Handle, later: Handle)
    requires Good(s, next) && next <= later
    ensures Good(s, later)
  {
    hide Bookkept, Owned, Parked;
  }

  function Created(s: State, id: Id, content: Content): State { s.(objects := s.objects[id := Cipher(content, 0, false)]) }

  /** A device ciphertext registered for object id. */
  function RegisteredFor(s: State, id: Id, cpu: Content, h: Handle, content: Content, modUp: bool, bytes: nat): State {
    Registered(s, h, content, modUp, bytes).(objects := s.objects[id := Cipher(cpu, h, true)])
  }

  /** `LoadCiphertext`: the one place where the budget is enforced in an operation. */
  function Loaded(s: State, id: Id, bytes: nat, h: Handle): (t: State)
    requires id in s.objects
    ensures t.objects.Keys == s.objects.Keys
  {
    var o := s.objects[id];
    if o.loaded then Enforced(Reloaded(s, o.gpu, bytes), o.gpu)
    else Enforced(RegisteredFor(s, id, o.cpu, h, o.cpu, false, bytes), h)
  }

  /** Only a registration takes a handle. */
  function NextHandle(s: State, id: Id, next: Handle): Handle
    requires id in s.objects
  {
    if s.objects[id].loaded then next else next + 1
  }

  /** A result stored through the pointer of a fetched ciphertext. A snapshot, if there were one, would
      be left as it is. */
  function Stored(s: State, id: Id, content: Content, modUp: bool): State
    requires id in s.objects
  {
    var h := s.objects[id].gpu;
    s.(device := s.device[h := DeviceOf(s, h).(now := content, modUp := modUp)])
  }

  /** The copy constructor and `CopyDeviceCiphertext`. */
  function Cloned(s: State, id: Id, twin: Id, fetchBytes: nat, copyBytes: nat, h: Handle): State
    requires id in s.objects
  {
    var o := s.objects[id];
    if o.loaded then
      var t := Fetched(s, o.gpu, fetchBytes);
      RegisteredFor(t, twin, o.cpu, h, DeviceOf(t, o.gpu).now, DeviceOf(t, o.gpu).modUp, copyBytes)
    else s.(objects := s.objects[twin := Cipher(o.cpu, 0, false)])
  }

  /** `UnloadCiphertext`: the host copy is brought up to date, then the device one goes. */
  function Unloaded(s: State, id: Id, bytes: nat): State
    requires id in s.objects
  {
    var o := s.objects[id];
    if !o.loaded then s
    else
      var t := Fetched(s, o.gpu, bytes);
      Evicted(t, o.gpu).(objects := s.objects[id := Cipher(DeviceOf(t, o.gpu).now, 0, false)])
  }

  function Destroyed(s: State, id: Id): State
    requires id in s.objects
  {
    var t := if s.objects[id].loaded then Evicted(s, s.objects[id].gpu) else s;
    t.(objects := s.objects - {id})
  }

  function Unpinned(s: State, id: Id): State
    requires id in s.objects
  {
    if s.objects[id].gpu != 0 then Enforced(s.(pinned := s.pinned - {s.objects[id].gpu}), 0) else s
  }

  function Pinned(s: State, id: Id, bytes: nat): State
    requires id in s.objects
  {
    var h := s.objects[id].gpu;
    if s.objects[id].loaded && h != 0 then
      var t := Reloaded(s, h, bytes);
      t.(pinned := t.pinned + {h})
    else s
  }

  function AllOffloaded(s: State): State
  {
    ParkTo(s, Keep(s.lru, s.pinned + Extended(s)))
  }

  function BudgetSet(s: State, bytes: nat): State
  {
    Enforced(s.(budget := bytes), 0)
  }

  /** How one object looks is all that changed. */
  lemma ViewChanged(s: State, t: State, id: Id, seen: Seen)
    requires t.objects.Keys == s.objects.Keys + {id} && SeenAs(t, id) == seen
    requires forall o :: o in s.objects && o != id ==> SeenAs(t, o) == SeenAs(s, o)
    ensures View(t) == View(s)[id := seen]
  {
    hide SeenAs;
  }

  lemma ViewGone(s: State, t: State, id: Id)
    requires t.objects.Keys == s.objects.Keys - {id}
    requires forall o :: o in s.objects && o != id ==> SeenAs(t, o) == SeenAs(s, o)
    ensures View(t) == View(s) - {id}
  {
    hide SeenAs;
  }

  lemma GoodCreated(s: State, next: Handle, id: Id, content: Content)
    requires Good(s, next) && id !in s.objects
    ensures Good(Created(s, id, content), next) && View(Created(s, id, content)) == View(s)[id := Seen(content, false, false)]
  {
    var t := Created(s, id, content);
    hide Bookkept, Parked, Owned, HandlesBelow, View;
    CreatedParts(s, next, id, content);
    SeenTheSame(s, t, {id});
    ViewChanged(s, t, id, Seen(content, false, false));
  }

  lemma CreatedParts(s: State, next: Handle, id: Id, content: Content)
    requires id !in s.objects
    ensures var t := Created(s, id, content);
      (Bookkept(s) ==> Bookkept(t)) && (Parked(s) ==> Parked(t)) && (Owned(s) ==> Owned(t)) && (HandlesBelow(s, next) ==> HandlesBelow(t, next))
  {
    var t := Created(s, id, content);
    assert Bookkept(s) ==> Bookkept(t) by { hide NoDuplicates, SumBytes, Parked, Owned; }
    assert Parked(s) ==> Parked(t) by { hide Bookkept, Owned; }
    hide Bookkept, Parked;
  }

  /** An object that keeps its record and its device looks the same. */
  lemma SeenTheSame(s: State, t: State, others: set<Id>)
    requires forall o :: o in s.objects && o !in others ==>
      o in t.objects && t.objects[o] == s.objects[o] && (s.objects[o].loaded ==> DeviceOf(t, s.objects[o].gpu) == DeviceOf(s, s.objects[o].gpu))
    ensures forall o :: o in s.objects && o !in others ==> SeenAs(t, o) == SeenAs(s, o)
  {
    hide DeviceOf;
  }

  lemma OwnedRegistered(s: State, id: Id, cpu: Content, h: Handle, content: Content, modUp: bool, bytes: nat)
    requires Owned(s) && Parked(s) && s.device.Keys == s.cache.Keys && h !in s.cache && (id in s.objects ==> !s.objects[id].loaded)
    ensures var t := RegisteredFor(s, id, cpu, h, content, modUp, bytes);
      Owned(t) && Parked(t) && View(t) == View(s)[id := Seen(content, true, modUp)]
  {
    hide *;
    RegisteredView(s, id, cpu, h, content, modUp, bytes);
    RegisteredParked(s, id, cpu, h, content, modUp, bytes);
    RegisteredOwned(s, id, cpu, h, content, modUp, bytes);
  }

  lemma RegisteredParked(s: State, id: Id, cpu: Content, h: Handle, content: Content, modUp: bool, bytes: nat)
    requires Parked(s)
    ensures Parked(RegisteredFor(s, id, cpu, h, content, modUp, bytes))
  {
  }

  lemma RegisteredOwned(s: State, id: Id, cpu: Content, h: Handle, content: Content, modUp: bool, bytes: nat)
    requires Owned(s) && h !in s.device && (id in s.objects ==> !s.objects[id].loaded)
    ensures Owned(RegisteredFor(s, id, cpu, h, content, modUp, bytes))
  {
  }

  lemma RegisteredView(s: State, id: Id, cpu: Content, h: Handle, content: Content, modUp: bool, bytes: nat)
    requires Owned(s) && h !in s.device
    ensures View(RegisteredFor(s, id, cpu, h, content, modUp, bytes)) == View(s)[id := Seen(content, true, modUp)]
  {
    var t := RegisteredFor(s, id, cpu, h, content, modUp, bytes);
    SeenTheSame(s, t, {id});
    hide Owned, View;
    ViewChanged(s, t, id, Seen(content, true, modUp));
  }

  lemma GoodRegistered(s: State, next: Handle, id: Id, cpu: Content, content: Content, modUp: bool, bytes: nat)
    requires Good(s, next) && (id in s.objects ==> !s.objects[id].loaded)
    ensures var t := RegisteredFor(s, id, cpu, next, content, modUp, bytes);
      Good(t, next + 1) && View(t) == View(s)[id := Seen(content, true, modUp)]
      && t.objects[id] == Cipher(cpu, next, true) && next in t.lru
  {
    GoodSplit(s, next);
    hide Bookkept, Owned, Parked, HandlesBelow, View, Registered;
    BookkeptRegistered(s, next, content, modUp, bytes);
    OwnedRegistered(s, id, cpu, next, content, modUp, bytes);
    AloneBelow(s, next, content, modUp, bytes);
    var r, t := Registered(s, next, content, modUp, bytes), RegisteredFor(s, id, cpu, next, content, modUp, bytes);
    OtherObjects(r, r, t, next + 1);
    RegisteredFirst(s, next, content, modUp, bytes);
  }

  lemma RegisteredFirst(s: State, h: Handle, content: Content, modUp: bool, bytes: nat)
    ensures h in Registered(s, h, content, modUp, bytes).lru
  {
  }
  /** A registered ciphertext that no object has yet is seen by nobody. */
  lemma RegisteredAlone(s: State, next: Handle, content: Content, modUp: bool, bytes: nat)
    requires Good(s, next)
    ensures var t := Registered(s, next, content, modUp, bytes);
      Good(t, next + 1) && View(t) == View(s) && next !in s.device
  {
    GoodSplit(s, next);
    hide Bookkept, Parked, Owned, HandlesBelow, DeviceOf, Registered, View, SeenAs;
    BookkeptRegistered(s, next, content, modUp, bytes);
    AloneParked(s, next, content, modUp, bytes);
    AloneOwned(s, next, content, modUp, bytes);
    AloneBelow(s, next, content, modUp, bytes);
    var t := Registered(s, next, content, modUp, bytes);
    SeenTheSame(s, t, {});
    SameSeen(s, t);
  }

  lemma GoodSplit(s: State, next: Handle)
    requires Good(s, next)
    ensures Bookkept(s) && Parked(s) && Owned(s) && HandlesBelow(s, next) && next > 0
    ensures next !in s.cache && next !in s.device && s.device.Keys == s.cache.Keys
  {
    hide NoDuplicates, SumBytes, Device.Valid;
  }

  lemma SameSeen(s: State, t: State)
    requires t.objects.Keys == s.objects.Keys && forall o :: o in s.objects ==> SeenAs(t, o) == SeenAs(s, o)
    ensures View(t) == View(s)
  {
    hide SeenAs;
  }

  lemma AloneParked(s: State, h: Handle, content: Content, modUp: bool, bytes: nat)
    requires Parked(s)
    ensures Parked(Registered(s, h, content, modUp, bytes))
  {
  }

  lemma AloneOwned(s: State, h: Handle, content: Content, modUp: bool, bytes: nat)
    requires Owned(s) && h !in s.device
    ensures var t := Registered(s, h, content, modUp, bytes);
      && Owned(t) && t.objects == s.objects
      && forall o :: o in s.objects && s.objects[o].loaded ==> DeviceOf(t, s.objects[o].gpu) == DeviceOf(s, s.objects[o].gpu)
  {
  }

  lemma AloneBelow(s: State, h: Handle, content: Content, modUp: bool, bytes: nat)
    requires HandlesBelow(s, h) && h > 0
    ensures HandlesBelow(Registered(s, h, content, modUp, bytes), h + 1)
  {
  }

  /** Loading changes nothing anyone sees, except that the ciphertext is now loaded; and the budget
      never parks the ciphertext being loaded. */
  lemma GoodLoaded(s: State, next: Handle, id: Id, bytes: nat)
    requires Good(s, next) && id in s.objects
    ensures next !in s.cache
    ensures var t := Loaded(s, id, bytes, next);
      && Good(t, NextHandle(s, id, next))
      && View(t) == View(s)[id := SeenAs(s, id).(loaded := true)]
  {
    GoodSplit(s, next);
    hide Valid, Enforced, Reloaded, RegisteredFor, View;
    var o := s.objects[id];
    if o.loaded {
      var r := Reloaded(s, o.gpu, bytes);
      ValidReloaded(s, next, o.gpu, bytes);
      ValidEnforced(r, next, o.gpu);
      SeenAlready(s, id);
    } else {
      var r := RegisteredFor(s, id, o.cpu, next, o.cpu, false, bytes);
      GoodRegistered(s, next, id, o.cpu, o.cpu, false, bytes);
      ValidEnforced(r, next + 1, next);
    }
  }

  lemma SeenAlready(s: State, id: Id)
    requires id in s.objects && s.objects[id].loaded
    ensures View(s)[id := SeenAs(s, id).(loaded := true)] == View(s)
  {
  }

  lemma GoodStored(s: State, next: Handle, id: Id, content: Content, modUp: bool)
    requires Good(s, next) && id in s.objects && s.objects[id].loaded
    requires s.objects[id].gpu in s.device && !s.device[s.objects[id].gpu].Offloaded()
    ensures Good(Stored(s, id, content, modUp), next)
    ensures View(Stored(s, id, content, modUp)) == View(s)[id := Seen(content, true, modUp)]
  {
    var t := Stored(s, id, content, modUp);
    GoodSplit(s, next);
    hide Parked, Bookkept, Owned, HandlesBelow, View, SeenAs, DeviceOf, Stored;
    StoredParts(s, next, id, content, modUp);
    SeenTheSame(s, t, {id});
    ViewChanged(s, t, id, Seen(content, true, modUp));
  }

  lemma StoredParts(s: State, next: Handle, id: Id, content: Content, modUp: bool)
    requires id in s.objects && s.objects[id].loaded && s.objects[id].gpu in s.device && !s.device[s.objects[id].gpu].Offloaded()
    requires Owned(s)
    ensures var t := Stored(s, id, content, modUp);
      && t.objects == s.objects && Owned(t) && SeenAs(t, id) == Seen(content, true, modUp)
      && (Parked(s) ==> Parked(t)) && (Bookkept(s) ==> Bookkept(t)) && (HandlesBelow(s, next) ==> HandlesBelow(t, next))
      && forall o :: o in s.objects && o != id && s.objects[o].loaded ==> DeviceOf(t, s.objects[o].gpu) == DeviceOf(s, s.objects[o].gpu)
  {
    var t := Stored(s, id, content, modUp);
    assert Parked(s) ==> Parked(t) by { hide Owned, Bookkept, HandlesBelow; }
    assert Bookkept(s) ==> Bookkept(t) by { hide Owned, Parked, HandlesBelow, NoDuplicates, SumBytes; }
    hide Parked, Bookkept;
  }

  lemma GoodCloned(s: State, next: Handle, id: Id, twin: Id, fetchBytes: nat, copyBytes: nat)
    requires Good(s, next) && id in s.objects && twin !in s.objects
    ensures var t := Cloned(s, id, twin, fetchBytes, copyBytes, next);
      Good(t, next + 1) && View(t) == View(s)[twin := SeenAs(s, id)]
  {
    var o := s.objects[id];
    if o.loaded {
      hide Fetched, View, Valid, RegisteredFor;
      LoadedDevice(s, next, id);
      GoodFetched(s, next, o.gpu, fetchBytes);
      var t := Fetched(s, o.gpu, fetchBytes);
      GoodRegistered(t, next, twin, o.cpu, t.device[o.gpu].now, t.device[o.gpu].modUp, copyBytes);
    } else {
      hide Good, View;
      GoodCreated(s, next, twin, o.cpu);
      GoodLater(Created(s, twin, o.cpu), next, next + 1);
    }
  }

  lemma LoadedDevice(s: State, next: Handle, id: Id)
    requires Good(s, next) && id in s.objects && s.objects[id].loaded
    ensures s.objects[id].gpu in s.device && s.device[s.objects[id].gpu].Valid()
  {
    hide Bookkept, HandlesBelow, Device.Valid;
  }

  /** After a fetch the pointer reads what the ciphertext stands for. */
  lemma GoodFetched(s: State, next: Handle, h: Handle, bytes: nat)
    requires Good(s, next)
    ensures var t := Fetched(s, h, bytes);
      && Good(t, next) && View(t) == View(s) && t.objects == s.objects
      && (h !in s.device ==> t == s)
      && (h in s.device ==> h in t.device && !t.device[h].Offloaded() && t.device[h].now == s.device[h].Contents() && t.device[h].modUp == s.device[h].modUp)
  {
    ValidFetched(s, next, h, bytes);
    GoodSplit(s, next);
    if h in s.device {
      assert s.device[h].Valid() by { hide Bookkept, Owned, HandlesBelow, Device.Valid; }
      FetchedForm(s, h, bytes);
      ReloadRestores(s.device[h]);
    }
    hide Valid, Bookkept, Parked, Owned, HandlesBelow, View, SetOffloaded, Device.Valid;
  }

  /** A fetched ciphertext is the most recent one. */
  lemma FetchedFirst(s: State, next: Handle, h: Handle, bytes: nat)
    requires Good(s, next) && h in s.device
    ensures var t := Fetched(s, h, bytes);
      && h in t.cache && t.cache[h] == Entry(bytes, true) && |t.lru| > 0 && t.lru[0] == h && t.lru[1..] == Without(s.lru, h)
    ensures s.device[h].Offloaded() ==> Reloaded(s, h, bytes) == Fetched(s, h, bytes)
  {
    GoodSplit(s, next);
    BookkeptSetOffloaded(s, h, false);
    TouchedFirst(if s.device[h].Offloaded() then SetOffloaded(s, h, false) else s, h, bytes);
    hide Bookkept, Parked, Owned, HandlesBelow, Touched, Without, Device.Offloaded;
  }

  /** A fetch enforces nothing: it stays within the limit exactly when the fetched ciphertext fits, with the
      size it has now, beside the others that are resident. */
  lemma FetchMayExceed(s: State, next: Handle, h: Handle, bytes: nat)
    requires Good(s, next) && h in s.device
    ensures var others := s.resident - (if s.device[h].Offloaded() then 0 else s.cache[h].bytes);
      others >= 0 && (Fetched(s, h, bytes).resident <= s.budget <==> others + bytes <= s.budget)
  {
    GoodSplit(s, next);
    BookkeptTouched(s, h, bytes);
    assert s.device[h].Offloaded() == !s.cache[h].mark;
    hide Bookkept, Parked, Owned, HandlesBelow, Without, Device.Offloaded;
  }

  lemma EvictedForm(s: State, h: Handle)
    ensures var t := Evicted(s, h);
      t.objects == s.objects && t.device == s.device - {h} && (t.cache == s.cache - {h})
  {
    hide Without;
  }

  /** Where no other loaded object has the handle, evicting it concerns one object only. */
  lemma EvictedOwned(s: State, t: State, id: Id)
    requires Owned(s) && id in s.objects && s.objects[id].loaded && t.device == s.device - {s.objects[id].gpu}
    requires forall o :: o in t.objects && o != id ==> o in s.objects && t.objects[o] == s.objects[o]
    requires id in t.objects ==> !t.objects[id].loaded && t.objects[id].gpu == 0
    ensures Owned(t)
    ensures forall o :: o in s.objects && o != id && s.objects[o].loaded ==> DeviceOf(t, s.objects[o].gpu) == DeviceOf(s, s.objects[o].gpu)
  {
  }

  lemma EvictedParked(s: State, t: State, h: Handle)
    requires Parked(s) && t.device == s.device - {h} && t.cache == s.cache - {h}
    ensures Parked(t)
  {
    hide Device.Valid, Device.Offloaded;
  }

  lemma OwnedReplaced(s: State, id: Id, cpu: Content)
    requires Owned(s) && Parked(s) && s.device.Keys == s.cache.Keys && id in s.objects && s.objects[id].loaded
    ensures var t := Evicted(s, s.objects[id].gpu).(objects := s.objects[id := Cipher(cpu, 0, false)]);
      Owned(t) && Parked(t) && View(t) == View(s)[id := Seen(cpu, false, false)]
  {
    var t := Evicted(s, s.objects[id].gpu).(objects := s.objects[id := Cipher(cpu, 0, false)]);
    EvictedForm(s, s.objects[id].gpu);
    EvictedOwned(s, t, id);
    EvictedParked(s, t, s.objects[id].gpu);
    hide Evicted, Owned, Parked, View, DeviceOf;
    SeenTheSame(s, t, {id});
    ViewChanged(s, t, id, Seen(cpu, false, false));
  }

  lemma OwnedGone(s: State, id: Id)
    requires Owned(s) && Parked(s) && s.device.Keys == s.cache.Keys && id in s.objects && s.objects[id].loaded
    ensures var t := Evicted(s, s.objects[id].gpu).(objects := s.objects - {id});
      Owned(t) && Parked(t) && View(t) == View(s) - {id}
  {
    var t := Evicted(s, s.objects[id].gpu).(objects := s.objects - {id});
    EvictedForm(s, s.objects[id].gpu);
    EvictedOwned(s, t, id);
    EvictedParked(s, t, s.objects[id].gpu);
    hide Evicted, Owned, Parked, View, DeviceOf;
    SeenTheSame(s, t, {id});
    ViewGone(s, t, id);
  }

  lemma GoodEvicted(s: State, next: Handle, id: Id, cpu: Content)
    requires Good(s, next) && id in s.objects && s.objects[id].loaded
    ensures var t := Evicted(s, s.objects[id].gpu);
      var unloaded, gone := t.(objects := s.objects[id := Cipher(cpu, 0, false)]), t.(objects := s.objects - {id});
      && Good(unloaded, next) && View(unloaded) == View(s)[id := Seen(cpu, false, false)]
      && Good(gone, next) && View(gone) == View(s) - {id}
  {
    GoodSplit(s, next);
    hide Bookkept, Parked, Owned, HandlesBelow, Evicted, View;
    var t := Evicted(s, s.objects[id].gpu);
    OwnedReplaced(s, id, cpu);
    OwnedGone(s, id);
    BookkeptUntracked(s, s.objects[id].gpu);
    EvictedForm(s, s.objects[id].gpu);
    OtherObjects(s, t, t.(objects := s.objects[id := Cipher(cpu, 0, false)]), next);
    OtherObjects(s, t, t.(objects := s.objects - {id}), next);
  }

  /** Books and handle bounds have nothing to do with the objects. */
  lemma OtherObjects(s: State, t: State, u: State, next: Handle)
    requires Bookkept(t) && u == t.(objects := u.objects) && HandlesBelow(s, next) && t.cache.Keys <= s.cache.Keys
    ensures Bookkept(u) && HandlesBelow(u, next)
  {
    hide NoDuplicates, SumBytes;
  }

  lemma GoodUnloaded(s: State, next: Handle, id: Id, bytes: nat)
    requires Good(s, next) && id in s.objects
    ensures Good(Unloaded(s, id, bytes), next)
    ensures s.objects[id].gpu !in Unloaded(s, id, bytes).device && s.objects[id].gpu !in Unloaded(s, id, bytes).cache
    ensures View(Unloaded(s, id, bytes)) == View(s)[id := Seen(SeenAs(s, id).content, false, false)]
  {
    var o := s.objects[id];
    if o.loaded {
      ValidFetched(s, next, o.gpu, bytes);
      var t := Fetched(s, o.gpu, bytes);
      hide Fetched, View, Valid, Bookkept, Parked;
      GoodEvicted(t, next, id, t.device[o.gpu].now);
      hide Evicted;
    } else {
      assert View(s)[id := Seen(SeenAs(s, id).content, false, false)] == View(s);
    }
  }

  lemma GoodDestroyed(s: State, next: Handle, id: Id)
    requires Good(s, next) && id in s.objects
    ensures Good(Destroyed(s, id), next) && View(Destroyed(s, id)) == View(s) - {id}
    ensures s.objects[id].gpu !in Destroyed(s, id).device && s.objects[id].gpu !in Destroyed(s, id).cache
  {
    if s.objects[id].loaded {
      hide Evicted, Good, View;
      GoodEvicted(s, next, id, s.objects[id].cpu);
    } else {
      GoodSplit(s, next);
      hide Bookkept, Parked, Owned, HandlesBelow, View;
      var t := s.(objects := s.objects - {id});
      DroppedParts(s, t, id);
      OtherObjects(s, s, t, next);
      SeenTheSame(s, t, {id});
      ViewGone(s, t, id);
    }
  }

  lemma DroppedParts(s: State, t: State, id: Id)
    requires t == s.(objects := s.objects - {id})
    ensures (Parked(s) ==> Parked(t)) && (Owned(s) ==> Owned(t))
  {
    hide Device.Valid, Device.Offloaded;
  }

  lemma GoodEnforced(s: State, next: Handle, protect: Handle)
    requires Good(s, next)
    ensures Good(Enforced(s, protect), next) && SameView(s, Enforced(s, protect))
  {
    ValidEnforced(s, next, protect);
    hide Valid;
  }

  lemma GoodPins(s: State, next: Handle, pins: set<Handle>)
    requires Good(s, next) && pins <= s.device.Keys + s.pinned
    ensures Good(s.(pinned := pins), next) && SameView(s, s.(pinned := pins))
  {
    hide NoDuplicates, SumBytes;
  }

  lemma GoodPinned(s: State, next: Handle, id: Id, bytes: nat)
    requires Good(s, next) && id in s.objects
    ensures Good(Pinned(s, id, bytes), next) && SameView(s, Pinned(s, id, bytes))
  {
    var h := s.objects[id].gpu;
    var t := Reloaded(s, h, bytes);
    ValidReloaded(s, next, h, bytes);
    assert s.objects[id].loaded ==> h in t.device;
    assert SameView(s, s);
    hide Reloaded, Valid, View, Owned;
    if s.objects[id].loaded {
      GoodPins(t, next, t.pinned + {h});
    }
  }

  lemma GoodUnpinned(s: State, next: Handle, id: Id)
    requires Good(s, next) && id in s.objects
    ensures Good(Unpinned(s, id), next) && SameView(s, Unpinned(s, id))
  {
    var t := s.(pinned := s.pinned - {s.objects[id].gpu});
    GoodPins(s, next, s.pinned - {s.objects[id].gpu});
    hide Good, Enforced, View;
    GoodEnforced(t, next, 0);
  }

  lemma GoodAllOffloaded(s: State, next: Handle)
    requires Good(s, next)
    ensures Good(AllOffloaded(s), next) && SameView(s, AllOffloaded(s))
  {
    KeepDistinct(s.lru, s.pinned + Extended(s));
    ValidParkTo(s, next, Keep(s.lru, s.pinned + Extended(s)));
    hide Keep, ParkTo, Parked, Owned, NoDuplicates, SumBytes;
  }

  lemma GoodBudgetSet(s: State, next: Handle, bytes: nat)
    requires Good(s, next)
    ensures Good(BudgetSet(s, bytes), next) && SameView(s, BudgetSet(s, bytes))
  {
    var t := s.(budget := bytes);
    assert Good(t, next) && SameView(s, t) by { hide NoDuplicates, SumBytes; }
    hide Good, Enforced, View;
    GoodEnforced(t, next, 0);
  }
  // ---- The budget ----

  /** Enforcing parks strictly the least recently used that can be, no more than the budget asks for,
      and ends within the budget or with only protected, pinned or extended ciphertexts resident. */
  lemma EnforcedTakesTheOldest(s: State, next: Handle, protect: Handle) returns (cut: nat)
    requires Valid(s, next) && s.budget != SIZE_MAX
    ensures var t := Enforced(s, protect);
      && (forall h :: h in t.lru ==> h in s.lru)
      && IsCut(s.lru, t.lru, s.cache, Exempt(s, protect), 0, s.budget, cut)
      && t.resident == SumBytes(t.lru, s.cache)
      && (t.resident <= s.budget || forall h :: h in t.lru ==> h == protect || h in s.pinned || h in Extended(s))
  {
    cut := OldestGo(s.lru, s.cache, Exempt(s, protect), s.resident, s.budget, 0);
    hide SumBytes, Keep, NoDuplicates;
  }

  ghost predicate OldestGone(s: State, t: State, spared: set<Handle>) {
    (forall h :: h in t.lru ==> h in s.lru) && exists cut :: IsCut(s.lru, t.lru, s.cache, spared, 0, s.budget, cut)
  }

  /** The budget has been enforced on s, sparing `protect`: nothing happens without a limit; otherwise a
      prefix of the recency list stays resident, and of the rest only what is pinned, protected or in
      the extended basis; what was parked last still had to be to meet the budget, and now it is met
      unless only such ciphertexts are resident. */
  ghost predicate BudgetApplied(s: State, t: State, protect: Handle) {
    if s.budget == SIZE_MAX then t == s
    else
      && t.budget == s.budget && t.pinned == s.pinned && t.objects == s.objects
      && OldestGone(s, t, s.pinned + {protect} + set h | h in s.device && s.device[h].modUp)
      && t.resident == SumBytes(t.lru, s.cache)
      && (t.resident <= s.budget || forall h :: h in t.lru ==> h == protect || h in s.pinned || (h in s.device && s.device[h].modUp))
  }

  lemma EnforcedApplies(s: State, next: Handle, protect: Handle)
    requires Good(s, next)
    ensures BudgetApplied(s, Enforced(s, protect), protect)
  {
    if s.budget != SIZE_MAX {
      var cut := EnforcedTakesTheOldest(s, next, protect);
      assert Exempt(s, protect) == s.pinned + {protect} + (set h | h in s.device && s.device[h].modUp);
      assert OldestGone(s, Enforced(s, protect), Exempt(s, protect));
    }
    hide IsCut, SumBytes, Survivors, Bookkept, Owned, Parked, HandlesBelow;
  }

  /** A new limit is met at once. */
  lemma NewBudgetApplies(s: State, next: Handle, bytes: nat)
    requires Good(s, next)
    ensures BudgetApplied(s.(budget := bytes), BudgetSet(s, bytes), 0)
  {
    var t := s.(budget := bytes);
    assert Good(t, next) by { hide NoDuplicates, SumBytes; }
    hide Good, Enforced, BudgetApplied;
    EnforcedApplies(t, next, 0);
  }

  lemma UnpinningApplies(s: State, next: Handle, id: Id)
    requires Good(s, next) && id in s.objects
    ensures var h, t := s.objects[id].gpu, Unpinned(s, id);
      && h !in t.pinned
      && if h == 0 then t == s else BudgetApplied(s.(pinned := s.pinned - {h}), t, 0)
  {
    var h := s.objects[id].gpu;
    GoodPins(s, next, s.pinned - {h});
    assert 0 !in s.pinned by { hide NoDuplicates, SumBytes; }
    hide Good, Enforced, BudgetApplied, View;
    EnforcedApplies(s.(pinned := s.pinned - {h}), next, 0);
    EnforcedPins(s.(pinned := s.pinned - {h}), 0);
  }

  lemma EnforcedPins(s: State, protect: Handle)
    ensures Enforced(s, protect).pinned == s.pinned && Enforced(s, protect).objects == s.objects
  {
    hide Survivors;
  }

  /** Loading registers or brings back, then enforces the budget sparing the loaded ciphertext, which is
      resident afterwards. */
  lemma LoadingApplies(s: State, next: Handle, id: Id, bytes: nat)
    requires Good(s, next) && id in s.objects
    ensures var o, t := s.objects[id], Loaded(s, id, bytes, next);
      && BudgetApplied(if o.loaded then Reloaded(s, o.gpu, bytes) else RegisteredFor(s, id, o.cpu, next, o.cpu, false, bytes), t, if o.loaded then o.gpu else next)
      && id in t.objects && t.objects[id].loaded && t.objects[id].gpu == (if o.loaded then o.gpu else next)
      && t.objects[id].gpu in t.lru && t.objects[id].gpu in t.device && !t.device[t.objects[id].gpu].Offloaded()
  {
    hide *;
    LoadedIs(s, id, bytes, next);
    var o := s.objects[id];
    if o.loaded {
      var r := Reloaded(s, o.gpu, bytes);
      ReloadedListed(s, next, id, bytes);
      EnforcedApplies(r, next, o.gpu);
      Spared(r, next, o.gpu);
    } else {
      var r := RegisteredFor(s, id, o.cpu, next, o.cpu, false, bytes);
      GoodRegistered(s, next, id, o.cpu, o.cpu, false, bytes);
      EnforcedApplies(r, next + 1, next);
      Spared(r, next + 1, next);
    }
  }

  lemma LoadedIs(s: State, id: Id, bytes: nat, h: Handle)
    requires id in s.objects
    ensures var o := s.objects[id];
      && (o.loaded ==> Loaded(s, id, bytes, h) == Enforced(Reloaded(s, o.gpu, bytes), o.gpu))
      && (!o.loaded ==> Loaded(s, id, bytes, h) == Enforced(RegisteredFor(s, id, o.cpu, h, o.cpu, false, bytes), h))
  {
    hide Enforced, Reloaded, RegisteredFor;
  }

  /** A loaded ciphertext is in the recency list once it has been brought back. */
  lemma ReloadedListed(s: State, next: Handle, id: Id, bytes: nat)
    requires Good(s, next) && id in s.objects && s.objects[id].loaded
    ensures var t := Reloaded(s, s.objects[id].gpu, bytes);
      Good(t, next) && t.objects == s.objects && s.objects[id].gpu in t.lru
  {
    var h := s.objects[id].gpu;
    LoadedDevice(s, next, id);
    ValidReloaded(s, next, h, bytes);
    Resident(Reloaded(s, h, bytes), next, h);
    hide Reloaded, Bookkept, Parked, Owned, HandlesBelow, View;
  }

  /** Resident means listed. */
  lemma Resident(s: State, next: Handle, h: Handle)
    requires Valid(s, next)
    ensures h in s.lru <==> h in s.device && !s.device[h].Offloaded()
  {
    hide NoDuplicates, SumBytes, Device.Valid;
  }

  lemma Spared(s: State, next: Handle, h: Handle)
    requires Good(s, next) && h in s.lru
    ensures var t := Enforced(s, h);
      && t.objects == s.objects && t.pinned == s.pinned && h in t.lru && h in t.device && !t.device[h].Offloaded()
  {
    hide *;
    GoodSplit(s, next);
    EnforcedPins(s, h);
    ProtectIsExempt(s, h);
    ExemptStaysResident(s, h, h);
    GoodIsValid(s, next);
    Resident(s, next, h);
  }

  lemma GoodIsValid(s: State, next: Handle)
    requires Good(s, next)
    ensures Valid(s, next)
  {
  }

  lemma ProtectIsExempt(s: State, protect: Handle)
    ensures protect in Exempt(s, protect)
  {
  }

  /** After pinning, the ciphertext is loaded, resident and pinned. */
  lemma PinnedStays(s: State, next: Handle, id: Id, bytes: nat)
    requires Good(s, next) && id in s.objects
    ensures var t := Pinned(Loaded(s, id, bytes, next), id, bytes);
      && id in t.objects && t.objects[id].loaded && t.objects[id].gpu in t.pinned
      && t.objects[id].gpu in t.lru && t.objects[id].gpu in t.device && !t.device[t.objects[id].gpu].Offloaded()
  {
    hide *;
    LoadingApplies(s, next, id, bytes);
    GoodLoaded(s, next, id, bytes);
    var l := Loaded(s, id, bytes, next);
    PinnedForm(l, NextHandle(s, id, next), id, bytes);
  }

  lemma PinnedForm(s: State, next: Handle, id: Id, bytes: nat)
    requires Good(s, next) && id in s.objects && s.objects[id].loaded
    requires s.objects[id].gpu in s.device && !s.device[s.objects[id].gpu].Offloaded()
    ensures Pinned(s, id, bytes) == s.(pinned := s.pinned + {s.objects[id].gpu})
  {
    GoodSplit(s, next);
    hide Bookkept, Parked, Owned, Device.Valid, Device.Offloaded;
  }

  /** Offloading everything leaves exactly the pinned and the extended ones of what was resident. */
  lemma AllOffloadedLeaves(s: State, h: Handle)
    ensures h in AllOffloaded(s).lru <==> h in s.lru && (h in s.pinned || (h in s.device && s.device[h].modUp))
    ensures AllOffloaded(s).pinned == s.pinned && AllOffloaded(s).budget == s.budget && AllOffloaded(s).objects == s.objects
  {
    hide Keep;
  }

  // ---- Parking one after the other ----

  /** `OffloadCiphertextForCache`: refuses what is not resident, not registered or extended. */
  predicate CanPark(s: State, h: Handle) {
    h in s.cache && s.cache[h].mark && h in s.device && (s.device[h].Offloaded() || !s.device[h].modUp)
  }

  function ParkedForCache(s: State, h: Handle): State { if CanPark(s, h) then Offloaded(s, h) else s }

  lemma ParkToAll(s: State)
    requires Bookkept(s)
    ensures ParkTo(s, s.lru) == s
  {
    var t := ParkTo(s, s.lru);
    assert t.cache == s.cache && t.device == s.device;
  }

  lemma MarkOne(cache: map<Handle, Entry<bool>>, keep: seq<Handle>, h: Handle)
    requires h in cache && cache[h].mark && h in keep
    ensures h in MarksAfter(cache, keep) && MarksAfter(cache, keep)[h] == cache[h]
    ensures MarksAfter(cache, keep)[h := Entry(cache[h].bytes, false)] == MarksAfter(cache, Without(keep, h))
  {
    hide Without;
  }

  lemma DeviceOne(device: map<Handle, Device>, cache: map<Handle, Entry<bool>>, keep: seq<Handle>, h: Handle)
    requires h in cache && cache[h].mark && h in keep && h in device
    ensures h in DevicesAfter(device, cache, keep) && DevicesAfter(device, cache, keep)[h] == device[h]
    ensures DevicesAfter(device, cache, keep)[h := OffloadedDevice(device[h])] == DevicesAfter(device, cache, Without(keep, h))
  {
    hide Without;
  }

  lemma ParkOneBytes(s: State, keep: seq<Handle>, h: Handle)
    requires Bookkept(s) && NoDuplicates(keep) && (forall k :: k in keep ==> k in s.lru) && h in keep
    ensures Offloaded(ParkTo(s, keep), h).resident == ParkTo(s, Without(keep, h)).resident
  {
    Leave(keep, s.cache, h, s.cache);
    MarkOne(s.cache, keep, h);
    hide NoDuplicates, SumBytes, Without, MarksAfter, DevicesAfter;
  }

  lemma ParkOne(s: State, keep: seq<Handle>, h: Handle)
    requires Bookkept(s) && NoDuplicates(keep) && (forall k :: k in keep ==> k in s.lru) && h in keep
    ensures Offloaded(ParkTo(s, keep), h) == ParkTo(s, Without(keep, h))
  {
    MarkOne(s.cache, keep, h);
    DeviceOne(s.device, s.cache, keep, h);
    ParkOneBytes(s, keep, h);
    hide NoDuplicates, SumBytes, Without, MarksAfter, DevicesAfter;
  }

  /** Inside the pass of the enforcer: `front` is still to be looked at, from its end; `passed` was
      exempt. */
  ghost predicate Passing(s: State, t: State, protect: Handle, front: seq<Handle>, passed: seq<Handle>) {
    && t == ParkTo(s, front + passed)
    && NoDuplicates(front + passed) && (forall h :: h in front + passed ==> h in s.lru)
    && Survivors(front, s.cache, Exempt(s, protect), t.resident, s.budget) + passed
       == Survivors(s.lru, s.cache, Exempt(s, protect), s.resident, s.budget)
  }

  lemma StartPassing(s: State, protect: Handle)
    requires Bookkept(s)
    ensures Passing(s, s, protect, s.lru, [])
  {
    ParkToAll(s);
    assert s.lru + [] == s.lru;
    var r := Survivors(s.lru, s.cache, Exempt(s, protect), s.resident, s.budget);
    assert r + [] == r;
    hide NoDuplicates, SumBytes, Survivors;
  }

  lemma PassExemptHandle(s: State, t: State, protect: Handle, front: seq<Handle>, passed: seq<Handle>)
    requires Passing(s, t, protect, front, passed) && front != [] && t.resident > s.budget
    requires front[|front| - 1] in Exempt(s, protect)
    ensures Passing(s, t, protect, front[..|front| - 1], [front[|front| - 1]] + passed)
  {
    hide Survivors, NoDuplicates, ParkTo, Exempt;
    var init, last := front[..|front| - 1], front[|front| - 1];
    FrontIn(front);
    Associative(init, [last], passed);
    SurvivorsStep(init, last, s.cache, Exempt(s, protect), t.resident, s.budget);
    var r := Survivors(init, s.cache, Exempt(s, protect), t.resident, s.budget);
    Associative(r, [last], passed);
  }

  lemma PassVictimHandle(s: State, t: State, protect: Handle, front: seq<Handle>, passed: seq<Handle>)
    requires Bookkept(s) && Passing(s, t, protect, front, passed) && front != [] && t.resident > s.budget
    requires front[|front| - 1] !in Exempt(s, protect)
    ensures Passing(s, Offloaded(t, front[|front| - 1]), protect, front[..|front| - 1], passed)
  {
    hide Survivors, NoDuplicates, Exempt, Bookkept, SumBytes, Offloaded, Without, MarksAfter, DevicesAfter;
    var init, last := front[..|front| - 1], front[|front| - 1];
    FrontIn(front);
    WithoutMiddle(init, last, passed);
    SurvivorsStep(init, last, s.cache, Exempt(s, protect), t.resident, s.budget);
    var keep := front + passed;
    assert last in keep by { assert keep[|front| - 1] == last; }
    WithoutSum(keep, last, s.cache);
    ParkOne(s, keep, last);
  }

  lemma Passed(s: State, t: State, protect: Handle, front: seq<Handle>, passed: seq<Handle>)
    requires Passing(s, t, protect, front, passed) && (front == [] || t.resident <= s.budget)
    requires s.budget != SIZE_MAX && s.resident > s.budget
    ensures t == Enforced(s, protect)
  {
    if t.resident <= s.budget {
      ExemptStay(front, s.cache, Exempt(s, protect), t.resident, s.budget);
    }
    hide NoDuplicates, ParkTo, Exempt;
  }

  /** In the pass, what can be parked is what is not exempt. */
  lemma CanParkUnlessExtended(s: State, t: State, protect: Handle, front: seq<Handle>, passed: seq<Handle>)
    requires Bookkept(s) && Parked(s) && Passing(s, t, protect, front, passed) && front != []
    ensures var last := front[|front| - 1];
      && (CanPark(t, last) <==> last !in Extended(s)) && t.pinned == s.pinned && t.budget == s.budget
      && (last in Exempt(s, protect) <==> last == protect || last in s.pinned || last in Extended(s))
  {
    var last := front[|front| - 1];
    assert last in front + passed by { assert (front + passed)[|front| - 1] == last; }
    hide NoDuplicates, SumBytes, Survivors;
  }

  /** Inside `OffloadCiphertexts`: the first i resident handles have been dealt with. */
  ghost predicate Draining(s: State, t: State, i: nat) {
    i <= |s.lru| && t == ParkTo(s, Keep(s.lru[..i], s.pinned + Extended(s)) + s.lru[i..])
  }

  lemma StartDraining(s: State)
    requires Bookkept(s)
    ensures Draining(s, s, 0)
  {
    ParkToAll(s);
    assert Keep(s.lru[..0], s.pinned + Extended(s)) + s.lru[0..] == s.lru;
    hide NoDuplicates, SumBytes;
  }

  lemma DrainSplit(s: State, i: nat) returns (done: seq<Handle>, h: Handle, rest: seq<Handle>)
    requires Bookkept(s) && i < |s.lru|
    ensures h == s.lru[i]
    ensures var keep := s.pinned + Extended(s);
      && Keep(s.lru[..i], keep) + s.lru[i..] == done + [h] + rest
      && Keep(s.lru[..i + 1], keep) + s.lru[i + 1..] == if h in keep then done + [h] + rest else done + rest
    ensures NoDuplicates(done + [h] + rest) && (forall k :: k in done + [h] + rest ==> k in s.lru) && h in done + [h] + rest
  {
    h := s.lru[i];
    var keep := s.pinned + Extended(s);
    done, rest := Keep(s.lru[..i], keep), s.lru[i + 1..];
    assert s.lru[..i + 1] == s.lru[..i] + [h] && s.lru[i..] == [h] + rest;
    DrainFacts(s, i, keep);
    hide *;
    KeepLast(s.lru[..i], h, keep);
    Associative(done, [h], rest);
    assert done + [] == done;
  }

  lemma DrainStep(s: State, t: State, i: nat)
    requires Bookkept(s) && Parked(s) && Draining(s, t, i) && i < |s.lru|
    ensures t.pinned == s.pinned && (s.lru[i] !in s.pinned ==> Draining(s, ParkedForCache(t, s.lru[i]), i + 1))
    ensures s.lru[i] in s.pinned ==> Draining(s, t, i + 1)
  {
    var done, h, rest := DrainSplit(s, i);
    var keep := done + [h] + rest;
    assert t == ParkTo(s, keep) && t.pinned == s.pinned;
    hide NoDuplicates, SumBytes, Keep, ParkTo, Offloaded, Bookkept, Without, CanPark, Parked;
    CanDrain(s, keep, h);
    if h !in s.pinned + Extended(s) {
      ParkOne(s, keep, h);
      WithoutMiddle(done, h, rest);
    }
  }

  lemma CanDrain(s: State, keep: seq<Handle>, h: Handle)
    requires Bookkept(s) && Parked(s) && h in keep && h in s.lru
    ensures CanPark(ParkTo(s, keep), h) <==> h !in Extended(s)
  {
    hide NoDuplicates, SumBytes;
  }

  lemma {:induction false} KeepPart(s: seq<Handle>, i: nat, keep: set<Handle>)
    requires i <= |s| && NoDuplicates(s)
    ensures NoDuplicates(Keep(s[..i], keep) + s[i..])
  {
    if i > 0 {
      NoDuplicatesTail(s);
      KeepPart(s[1..], i - 1, keep);
      assert s[..i][1..] == s[1..][..i - 1] && s[1..][i - 1..] == s[i..];
      var rest := Keep(s[1..][..i - 1], keep) + s[i..];
      assert s[0] !in rest by {
        assert forall x :: x in s[1..][..i - 1] || x in s[i..] ==> x in s[1..];
      }
      if s[0] in keep {
        NoDuplicatesCons(s[0], rest);
        assert Keep(s[..i], keep) + s[i..] == [s[0]] + rest;
      }
    } else {
      assert Keep(s[..i], keep) + s[i..] == s;
    }
  }

  lemma DrainFacts(s: State, i: nat, keep: set<Handle>)
    requires Bookkept(s) && i < |s.lru|
    ensures var all := Keep(s.lru[..i], keep) + [s.lru[i]] + s.lru[i + 1..];
      NoDuplicates(all) && (forall k :: k in all ==> k in s.lru) && s.lru[i] in all
  {
    KeepPart(s.lru, i, keep);
    assert Keep(s.lru[..i], keep) + s.lru[i..] == Keep(s.lru[..i], keep) + [s.lru[i]] + s.lru[i + 1..];
    hide NoDuplicates, SumBytes;
  }

  lemma Drained(s: State, t: State)
    requires Draining(s, t, |s.lru|)
    ensures t == AllOffloaded(s)
  {
    assert s.lru[..|s.lru|] == s.lru;
    var k := Keep(s.lru, s.pinned + Extended(s));
    assert k + [] == k;
    hide Keep, ParkTo;
  }
}
