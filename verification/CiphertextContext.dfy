/** The ciphertext side of the context as the source has it: methods that update the recency list, the
    cache map, the pins, the byte count and the registry in place, each proved to do what the function
    of CiphertextCache says. */
module CiphertextContext {
  import opened Recency
  import opened CiphertextCache
  import opened DeviceHandles
  import opened DeviceRecords
  import opened Options

  class Context {
    const handles: Handles
    var cacheBytes: nat
    var residentBytes: nat
    var cache: map<Handle, Entry<bool>>
    var lru: seq<Handle>
    var pinned: set<Handle>
    var deviceCiphertexts: map<Handle, Device>
    /** The ciphertext objects of the API. */
    var ciphertexts: map<Id, Cipher>

    ghost function State(): CiphertextCache.State
      reads this
    {
      CiphertextCache.State.State(cacheBytes, residentBytes, cache, lru, pinned, deviceCiphertexts, ciphertexts)
    }

    ghost predicate Valid()
      reads this, handles
    {
      CiphertextCache.Good(State(), handles.next)
    }

    constructor (handles: Handles)
      requires handles.next > 0
      ensures this.handles == handles && Valid() && State() == EMPTY
    {
      this.handles := handles;
      cacheBytes, residentBytes, cache, lru, pinned := SIZE_MAX, 0, map[], [], {};
      deviceCiphertexts, ciphertexts := map[], map[];
    }

    // ---- Bookkeeping ----

    /** A handle that was not listed keeps list and byte count in step. */
    method TrackCiphertext(handle: Handle, bytes: nat)
      modifies this`lru, this`cache, this`residentBytes
      ensures old(Counted(lru, cache, residentBytes) && handle !in lru) ==> Counted(lru, cache, residentBytes)
      ensures lru == [handle] + old(lru) && cache == old(cache)[handle := Entry(bytes, true)]
      ensures residentBytes == old(residentBytes) + bytes
    {
      if Counted(lru, cache, residentBytes) && handle !in lru {
        CountedTrack(lru, cache, residentBytes, handle, Entry(bytes, true));
      }
      hide Counted;
      lru := [handle] + lru;
      cache := cache[handle := Entry(bytes, true)];
      residentBytes := residentBytes + bytes;
    }

    /** The saturating subtraction of the source. */
    method Discount(bytes: nat)
      modifies this`residentBytes
      ensures residentBytes == Minus(old(residentBytes), bytes)
    {
      residentBytes := residentBytes - (if bytes < residentBytes then bytes else residentBytes);
    }

    /** The bytes of a resident ciphertext go, unclipped; a parked one has none to give back. */
    method UntrackCiphertext(handle: Handle)
      modifies this`lru, this`cache, this`residentBytes, this`pinned
      ensures State() == Untracked(old(State()), handle)
      ensures old(Bookkept(State()) && handle in cache) ==>
              && residentBytes == old(residentBytes) - (if old(cache)[handle].mark then old(cache)[handle].bytes else 0)
              && Counted(lru, cache, residentBytes) && handle !in lru && handle !in pinned
              && lru == if old(cache)[handle].mark then old(Without(lru, handle)) else old(lru)
    {
      if handle !in cache {
        return;
      }
      hide Bookkept, Counted, Without;
      if Bookkept(State()) {
        CountedUntracked(State(), handle);
      }
      if cache[handle].mark {
        Discount(cache[handle].bytes);
        lru := Without(lru, handle);
      }
      pinned := pinned - {handle};
      cache := cache - {handle};
    }

    /** Resident and most recent from now on, with its new size; the books stay right. */
    method TouchCiphertext(handle: Handle, bytes: nat)
      modifies this`lru, this`cache, this`residentBytes
      ensures State() == Touched(old(State()), handle, bytes)
      ensures old(Bookkept(State())) ==> Bookkept(State())
      ensures old(Bookkept(State()) && handle in cache) ==>
                handle in cache && cache[handle] == Entry(bytes, true) && |lru| > 0 && lru[0] == handle && lru[1..] == old(Without(lru, handle))
    {
      hide Bookkept, Without;
      if Bookkept(State()) {
        BookkeptTouched(State(), handle, bytes);
        if handle in cache {
          TouchedFirst(State(), handle, bytes);
        }
      }
      if handle !in cache {
        return;
      }
      if cache[handle].mark {
        Discount(cache[handle].bytes);
        lru := [handle] + Without(lru, handle);
      } else {
        lru := [handle] + lru;
        cache := cache[handle := Entry(cache[handle].bytes, true)];
      }
      residentBytes := residentBytes + bytes;
      cache := cache[handle := Entry(bytes, true)];
    }

    /** Its bytes no longer count and it is no candidate for eviction; the books stay right. */
    method MarkCiphertextOffloaded(handle: Handle)
      modifies this`lru, this`cache, this`residentBytes
      ensures State() == MarkedOffloaded(old(State()), handle)
      ensures old(Bookkept(State())) ==> Bookkept(State()) && handle !in lru
    {
      hide Bookkept, Without;
      if Bookkept(State()) {
        BookkeptMarked(State(), handle);
      }
      if handle !in cache || !cache[handle].mark {
        return;
      }
      Discount(cache[handle].bytes);
      lru := Without(lru, handle);
      cache := cache[handle := Entry(cache[handle].bytes, false)];
    }

    /** On the cache's behalf: not resident, not registered and extended ciphertexts are refused. */
    method OffloadCiphertextForCache(handle: Handle) returns (parked: bool)
      modifies this`lru, this`cache, this`residentBytes, this`deviceCiphertexts
      ensures State() == ParkedForCache(old(State()), handle)
      ensures parked == CanPark(old(State()), handle)
    {
      if handle !in cache || !cache[handle].mark {
        return false;
      }
      if handle !in deviceCiphertexts {
        return false;
      }
      var device := deviceCiphertexts[handle];
      if device.Offloaded() {
        MarkCiphertextOffloaded(handle);
        assert State().device == SetOffloaded(old(State()), handle, true).device;
        return true;
      }
      if device.modUp {
        return false;
      }
      deviceCiphertexts := deviceCiphertexts[handle := OffloadedDevice(device)];
      MarkCiphertextOffloaded(handle);
      parked := true;
    }

    // ---- The budget ----

    /** One pass over a snapshot, least recently used first. */
    method EnforceCiphertextBudget(protect: Handle)
      requires Valid()
      modifies this
      ensures Valid() && State() == Enforced(old(State()), protect) && BudgetApplied(old(State()), State(), protect)
    {
      hide Passing, Exempt, Extended, Bookkept, Parked, Enforced, Good, Survivors, ParkTo, BudgetApplied;
      EnforcedApplies(State(), handles.next, protect);
      EnforcedKeepsGood(State(), handles.next, protect);
      WithinBudget(State(), protect);
      GoodParts(State(), handles.next);
      if cacheBytes == SIZE_MAX || residentBytes <= cacheBytes {
        return;
      }
      ghost var s := State();
      StartPassing(s, protect);
      var candidates := lru;
      var i := |candidates|;
      ghost var passed: seq<Handle> := [];
      assert candidates[..i] == candidates;
      while i > 0
        invariant 0 <= i <= |candidates| && Passing(s, State(), protect, candidates[..i], passed)
      {
        PassingFacts(s, State(), protect, candidates[..i], passed);
        if residentBytes <= cacheBytes {
          break;
        }
        ghost var front := candidates[..i];
        i := i - 1;
        assert front[|front| - 1] == candidates[i] && front[..|front| - 1] == candidates[..i];
        passed := PassOne(s, protect, candidates[i], front, passed);
      }
      PassingFacts(s, State(), protect, candidates[..i], passed);
      Passed(s, State(), protect, candidates[..i], passed);
    }

    /** One candidate: kept if it is protected, pinned or extended, parked otherwise. */
    method PassOne(ghost s: CiphertextCache.State, protect: Handle, handle: Handle, ghost front: seq<Handle>, ghost passed: seq<Handle>)
      returns (ghost passed': seq<Handle>)
      requires Bookkept(s) && Parked(s) && Passing(s, State(), protect, front, passed)
      requires front != [] && handle == front[|front| - 1] && residentBytes > s.budget
      modifies this`lru, this`cache, this`residentBytes, this`deviceCiphertexts
      ensures Passing(s, State(), protect, front[..|front| - 1], passed')
    {
      hide Passing, Exempt, Extended, Bookkept, Parked, CanPark, Offloaded, ParkedForCache;
      CanParkUnlessExtended(s, State(), protect, front, passed);
      if handle == protect || handle in pinned {
        PassExemptHandle(s, State(), protect, front, passed);
        passed' := [handle] + passed;
        return;
      }
      ghost var t := State();
      ParkCases(t, handle);
      var parked := OffloadCiphertextForCache(handle);
      if parked {
        PassVictimHandle(s, t, protect, front, passed);
        passed' := passed;
      } else {
        PassExemptHandle(s, t, protect, front, passed);
        passed' := [handle] + passed;
      }
    }

    method SetCiphertextCache(bytes: nat)
      requires Valid()
      modifies this
      ensures Valid() && State() == BudgetSet(old(State()), bytes)
      ensures BudgetApplied(old(State()).(budget := bytes), State(), 0)
    {
      NewBudgetApplies(State(), handles.next, bytes);
      WithBudget(State(), handles.next, bytes);
      hide Good, Enforced, BudgetApplied;
      cacheBytes := bytes;
      EnforceCiphertextBudget(0);
    }

    /** Everything that is neither pinned nor extended. */
    method OffloadCiphertexts()
      requires Valid()
      modifies this
      ensures Valid() && State() == AllOffloaded(old(State()))
      ensures forall h :: h in lru <==> old(h in lru && (h in pinned || (h in deviceCiphertexts && deviceCiphertexts[h].modUp)))
    {
      hide Good, AllOffloaded, Draining, Bookkept, Parked, ParkedForCache, View;
      GoodAllOffloaded(State(), handles.next);
      ghost var s := State();
      forall h ensures h in AllOffloaded(s).lru <==> h in s.lru && (h in s.pinned || (h in s.device && s.device[h].modUp)) {
        AllOffloadedLeaves(s, h);
      }
      GoodParts(s, handles.next);
      StartDraining(s);
      var snapshot := lru;
      for i := 0 to |snapshot|
        invariant Draining(s, State(), i)
      {
        DrainStep(s, State(), i);
        if snapshot[i] !in pinned {
          var parked := OffloadCiphertextForCache(snapshot[i]);
        }
      }
      Drained(s, State());
    }

    // ---- The registry ----

    /** A handle that nothing registered or tracked has; nothing is evicted for it. */
    method RegisterDeviceCiphertext(content: Content, modUp: bool, limbBytes: nat) returns (handle: Handle)
      modifies this`deviceCiphertexts, this`lru, this`cache, this`residentBytes, handles
      ensures handle == old(handles.next) && handles.next == handle + 1
      ensures State() == Registered(old(State()), handle, content, modUp, limbBytes)
      ensures old(Valid()) ==> Valid() && handle !in old(deviceCiphertexts) && View(State()) == View(old(State()))
    {
      hide Good, View;
      if Valid() {
        RegisteredAlone(State(), handles.next, content, modUp, limbBytes);
      }
      handle := handles.next;
      handles.next := handles.next + 1;
      deviceCiphertexts := deviceCiphertexts[handle := Device(content, modUp, None)];
      TrackCiphertext(handle, limbBytes);
    }

    /** The one way to a device ciphertext: a parked one is brought back first. `limbBytes` is what it
        measures now. An unknown handle is an error. */
    method GetDeviceCiphertext(handle: Handle, limbBytes: nat) returns (content: Option<Content>)
      requires Valid()
      modifies this
      ensures Valid() && State() == Fetched(old(State()), handle, limbBytes)
      ensures content == if handle in old(deviceCiphertexts) then Some(old(deviceCiphertexts)[handle].Contents()) else None
      ensures handle in old(deviceCiphertexts) ==>
                && handle in deviceCiphertexts && !deviceCiphertexts[handle].Offloaded()
                && handle in cache && cache[handle] == Entry(limbBytes, true) && |lru| > 0 && lru[0] == handle && lru[1..] == old(Without(lru, handle))
    {
      hide Good, Fetched, Touched, View, SetOffloaded, Device.Contents;
      GoodFetched(State(), handles.next, handle, limbBytes);
      if handle in deviceCiphertexts {
        FetchedFirst(State(), handles.next, handle, limbBytes);
      }
      FetchedSteps(State(), handle, limbBytes);
      if handle !in deviceCiphertexts {
        return None;
      }
      if deviceCiphertexts[handle].Offloaded() {
        deviceCiphertexts := deviceCiphertexts[handle := ReloadedDevice(deviceCiphertexts[handle])];
      }
      content := Some(deviceCiphertexts[handle].now);
      TouchCiphertext(handle, limbBytes);
    }

    method OffloadCiphertext(handle: Handle)
      requires Valid() && (handle in deviceCiphertexts ==> !deviceCiphertexts[handle].modUp)
      modifies this
      ensures Valid() && State() == Offloaded(old(State()), handle)
      ensures handle in old(deviceCiphertexts) ==> handle in deviceCiphertexts && deviceCiphertexts[handle].Offloaded() && handle !in lru
    {
      ValidOffloaded(State(), handles.next, handle);
      Resident(Offloaded(State(), handle), handles.next, handle);
      NoZeroHandle(State(), handles.next);
      if handle == 0 || handle !in deviceCiphertexts {
        return;
      }
      hide CiphertextCache.Valid;
      deviceCiphertexts := deviceCiphertexts[handle := OffloadedDevice(deviceCiphertexts[handle])];
      MarkCiphertextOffloaded(handle);
    }

    method ReloadCiphertext(handle: Handle, limbBytes: nat)
      requires Valid()
      modifies this
      ensures Valid() && State() == Reloaded(old(State()), handle, limbBytes)
      ensures old(handle in deviceCiphertexts && deviceCiphertexts[handle].Offloaded()) ==>
                handle in deviceCiphertexts && !deviceCiphertexts[handle].Offloaded() && |lru| > 0 && lru[0] == handle
    {
      hide Good, Reloaded, Touched, View, SetOffloaded;
      GoodReloaded(State(), handles.next, handle, limbBytes);
      if handle in deviceCiphertexts {
        FetchedFirst(State(), handles.next, handle, limbBytes);
        GoodFetched(State(), handles.next, handle, limbBytes);
      }
      ReloadedSteps(State(), handle, limbBytes);
      NoZeroHandle(State(), handles.next);
      if handle == 0 || handle !in deviceCiphertexts || !deviceCiphertexts[handle].Offloaded() {
        return;
      }
      deviceCiphertexts := deviceCiphertexts[handle := ReloadedDevice(deviceCiphertexts[handle])];
      TouchCiphertext(handle, limbBytes);
    }

    /** The only automatic eviction point. */
    method LoadCiphertext(id: Id, limbBytes: nat)
      requires Valid() && id in ciphertexts
      modifies this, handles
      ensures Valid() && State() == Loaded(old(State()), id, limbBytes, old(handles.next))
      ensures handles.next == NextHandle(old(State()), id, old(handles.next))
      ensures id in ciphertexts && ciphertexts[id].loaded && ciphertexts[id].gpu in lru
      ensures var s, o := old(State()), old(ciphertexts)[id];
        if o.loaded then BudgetApplied(Reloaded(s, o.gpu, limbBytes), State(), o.gpu)
        else BudgetApplied(RegisteredFor(s, id, o.cpu, old(handles.next), o.cpu, false, limbBytes), State(), old(handles.next))
    {
      LoadingApplies(State(), handles.next, id, limbBytes);
      LoadedCases(State(), handles.next, id, limbBytes);
      hide Good, Loaded, Enforced, Reloaded, RegisteredFor, NextHandle, BudgetApplied;
      if ciphertexts[id].loaded {
        if ciphertexts[id].gpu != 0 {
          ReloadCiphertext(ciphertexts[id].gpu, limbBytes);
          EnforceCiphertextBudget(ciphertexts[id].gpu);
        }
        return;
      }
      var handle := Upload(id, limbBytes);
      EnforceCiphertextBudget(handle);
    }

    method Upload(id: Id, limbBytes: nat) returns (handle: Handle)
      requires Valid() && id in ciphertexts && !ciphertexts[id].loaded
      modifies this, handles
      ensures handle == old(handles.next) && handles.next == handle + 1
      ensures var cpu := old(ciphertexts)[id].cpu;
        Valid() && State() == RegisteredFor(old(State()), id, cpu, handle, cpu, false, limbBytes)
    {
      var cpu := ciphertexts[id].cpu;
      GoodRegistered(State(), handles.next, id, cpu, cpu, false, limbBytes);
      hide Good;
      handle := RegisterDeviceCiphertext(cpu, false, limbBytes);
      ciphertexts := ciphertexts[id := Cipher(cpu, handle, true)];
    }

    method EvictDeviceCiphertext(handle: Handle) returns (evicted: bool)
      modifies this`lru, this`cache, this`residentBytes, this`pinned, this`deviceCiphertexts
      ensures State() == Evicted(old(State()), handle) && evicted == (handle in old(deviceCiphertexts))
      ensures old(Bookkept(State())) ==> Bookkept(State()) && handle !in cache && handle !in deviceCiphertexts
    {
      hide Bookkept, Untracked;
      if Bookkept(State()) {
        EvictedGone(State(), handle);
      }
      UntrackCiphertext(handle);
      evicted := handle in deviceCiphertexts;
      deviceCiphertexts := deviceCiphertexts - {handle};
    }

    method PinCiphertext(id: Id, pin: bool, limbBytes: nat)
      requires Valid() && id in ciphertexts
      modifies this, handles
      ensures Valid()
      ensures State() == (if pin then Pinned(Loaded(old(State()), id, limbBytes, old(handles.next)), id, limbBytes)
                          else Unpinned(old(State()), id))
      ensures pin ==> id in ciphertexts && ciphertexts[id].loaded && ciphertexts[id].gpu in pinned && ciphertexts[id].gpu in lru
      ensures !pin ==> old(ciphertexts[id].gpu) !in pinned
      ensures !pin && old(ciphertexts[id].gpu) != 0 ==>
                BudgetApplied(old(State()).(pinned := old(pinned - {ciphertexts[id].gpu})), State(), 0)
    {
      hide Good, Loaded, Reloaded, Enforced, BudgetApplied, RegisteredFor, View, Device.Offloaded;
      PinnedStays(State(), handles.next, id, limbBytes);
      UnpinningApplies(State(), handles.next, id);
      if pin {
        LoadCiphertext(id, limbBytes);
        GoodPinned(State(), handles.next, id, limbBytes);
        ghost var t := State();
        if ciphertexts[id].loaded && ciphertexts[id].gpu != 0 {
          var handle := ciphertexts[id].gpu;
          ReloadCiphertext(handle, limbBytes);
          pinned := pinned + {handle};
        }
      } else if ciphertexts[id].gpu != 0 {
        GoodPins(State(), handles.next, pinned - {ciphertexts[id].gpu});
        pinned := pinned - {ciphertexts[id].gpu};
        EnforceCiphertextBudget(0);
      }
    }

    // ---- The life of a ciphertext ----

    /** The copy constructor; `twin` is the new object. */
    method Clone(id: Id, twin: Id, fetchBytes: nat, copyBytes: nat)
      requires Valid() && id in ciphertexts && twin !in ciphertexts
      modifies this, handles
      ensures Valid() && State() == Cloned(old(State()), id, twin, fetchBytes, copyBytes, old(handles.next))
      ensures View(State()) == View(old(State()))[twin := SeenAs(old(State()), id)]
    {
      hide Good, Cloned, Fetched, Registered, View, Device.Contents;
      GoodCloned(State(), handles.next, id, twin, fetchBytes, copyBytes);
      ClonedForm(State(), handles.next, id, twin, fetchBytes, copyBytes);
      var source := ciphertexts[id];
      if source.loaded {
        var handle := CopyDeviceCiphertext(source.gpu, fetchBytes, copyBytes);
        ciphertexts := ciphertexts[twin := Cipher(source.cpu, handle, true)];
      } else {
        NotLaterClone(State(), handles.next, id, twin, fetchBytes, copyBytes);
        ciphertexts := ciphertexts[twin := Cipher(source.cpu, 0, false)];
      }
    }

    method CopyDeviceCiphertext(gpu: Handle, fetchBytes: nat, copyBytes: nat) returns (handle: Handle)
      requires Valid() && gpu in deviceCiphertexts
      modifies this, handles
      ensures handle == old(handles.next) && handles.next == handle + 1
      ensures State() == Registered(Fetched(old(State()), gpu, fetchBytes), handle, old(deviceCiphertexts)[gpu].Contents(), old(deviceCiphertexts)[gpu].modUp, copyBytes)
    {
      var content := GetDeviceCiphertext(gpu, fetchBytes);
      var modUp := deviceCiphertexts[gpu].modUp;
      handle := RegisterDeviceCiphertext(content.value, modUp, copyBytes);
    }

    method UnloadCiphertext(id: Id, limbBytes: nat)
      requires Valid() && id in ciphertexts
      modifies this
      ensures Valid() && State() == Unloaded(old(State()), id, limbBytes)
      ensures old(ciphertexts[id].gpu) !in deviceCiphertexts && old(ciphertexts[id].gpu) !in cache
    {
      hide Good, Unloaded, Fetched, Evicted, View, Device.Contents;
      GoodUnloaded(State(), handles.next, id, limbBytes);
      UnloadedForm(State(), handles.next, id, limbBytes);
      if !ciphertexts[id].loaded {
        return;
      }
      var handle := ciphertexts[id].gpu;
      var content := GetDeviceCiphertext(handle, limbBytes);
      var evicted := EvictDeviceCiphertext(handle);
      ciphertexts := ciphertexts[id := Cipher(content.value, 0, false)];
    }

    /** The destructor of a ciphertext. */
    method Destroy(id: Id)
      requires Valid() && id in ciphertexts
      modifies this
      ensures Valid() && State() == Destroyed(old(State()), id)
      ensures old(ciphertexts[id].gpu) !in deviceCiphertexts && old(ciphertexts[id].gpu) !in cache
    {
      GoodDestroyed(State(), handles.next, id);
      LoadedIsRegistered(State(), handles.next, id);
      hide Good;
      if ciphertexts[id].loaded && ciphertexts[id].gpu != 0 {
        var evicted := EvictDeviceCiphertext(ciphertexts[id].gpu);
      }
      ciphertexts := ciphertexts - {id};
    }
  }

  lemma EvictedGone(s: State, h: Handle)
    requires Bookkept(s)
    ensures var t := Evicted(s, h); Bookkept(t) && h !in t.cache && h !in t.device
  {
    BookkeptUntracked(s, h);
    hide Bookkept, Untracked;
  }

  /** A fetch, step by step. */
  lemma FetchedSteps(s: State, h: Handle, bytes: nat)
    ensures h in s.device ==>
      var d := s.device[h];
      && Fetched(s, h, bytes) == Touched(if d.Offloaded() then s.(device := s.device[h := ReloadedDevice(d)]) else s, h, bytes)
      && (d.Offloaded() ==> ReloadedDevice(d).now == d.Contents()) && (!d.Offloaded() ==> d.now == d.Contents())
  {
    hide Touched;
  }

  lemma ReloadedSteps(s: State, h: Handle, bytes: nat)
    ensures Reloaded(s, h, bytes) ==
      if h in s.device && s.device[h].Offloaded() then Touched(s.(device := s.device[h := ReloadedDevice(s.device[h])]), h, bytes) else s
  {
    hide Touched;
  }

  lemma GoodReloaded(s: State, next: Handle, h: Handle, bytes: nat)
    requires Good(s, next)
    ensures Good(Reloaded(s, h, bytes), next)
  {
    ValidReloaded(s, next, h, bytes);
    hide CiphertextCache.Valid;
  }

  lemma EnforcedKeepsGood(s: State, next: Handle, protect: Handle)
    requires Good(s, next)
    ensures Good(Enforced(s, protect), next)
  {
    GoodEnforced(s, next, protect);
  }

  lemma GoodParts(s: State, next: Handle)
    requires Good(s, next)
    ensures Bookkept(s) && Parked(s)
  {
  }

  lemma WithinBudget(s: State, protect: Handle)
    ensures s.budget == SIZE_MAX || s.resident <= s.budget ==> Enforced(s, protect) == s
  {
  }

  lemma ParkCases(t: State, handle: Handle)
    ensures ParkedForCache(t, handle) == if CanPark(t, handle) then Offloaded(t, handle) else t
  {
  }

  lemma PassingFacts(s: State, t: State, protect: Handle, front: seq<Handle>, passed: seq<Handle>)
    requires Passing(s, t, protect, front, passed)
    ensures t.budget == s.budget
  {
  }

  lemma WithBudget(s: State, next: Handle, bytes: nat)
    requires Good(s, next)
    ensures Good(s.(budget := bytes), next)
  {
  }

  lemma NoZeroHandle(s: State, next: Handle)
    requires Good(s, next)
    ensures 0 !in s.device
  {
  }

  lemma LoadedIsRegistered(s: State, next: Handle, id: Id)
    requires Good(s, next) && id in s.objects
    ensures s.objects[id].loaded ==> s.objects[id].gpu in s.device && s.objects[id].gpu != 0
  {
  }

  lemma UnloadedForm(s: State, next: Handle, id: Id, bytes: nat)
    requires Good(s, next) && id in s.objects
    ensures var o := s.objects[id];
      if !o.loaded then Unloaded(s, id, bytes) == s
      else
        var t := Fetched(s, o.gpu, bytes);
        && o.gpu in s.device && t.objects == s.objects && Evicted(t, o.gpu).objects == s.objects
        && Unloaded(s, id, bytes) == Evicted(t, o.gpu).(objects := s.objects[id := Cipher(s.device[o.gpu].Contents(), 0, false)])
  {
    if s.objects[id].loaded {
      FetchedForLoaded(s, next, id, bytes);
    }
    hide Good, Fetched, Without;
  }

  lemma ClonedForm(s: State, next: Handle, id: Id, twin: Id, fetchBytes: nat, copyBytes: nat)
    requires Good(s, next) && id in s.objects
    ensures var o := s.objects[id];
      if !o.loaded then Cloned(s, id, twin, fetchBytes, copyBytes, next) == s.(objects := s.objects[twin := Cipher(o.cpu, 0, false)])
      else
        && o.gpu in s.device
        && var r := Registered(Fetched(s, o.gpu, fetchBytes), next, s.device[o.gpu].Contents(), s.device[o.gpu].modUp, copyBytes);
        && r.objects == s.objects && Cloned(s, id, twin, fetchBytes, copyBytes, next) == r.(objects := s.objects[twin := Cipher(o.cpu, next, true)])
  {
    if s.objects[id].loaded {
      FetchedForLoaded(s, next, id, fetchBytes);
    }
    hide Good, Fetched, Without;
  }

  /** What a fetch leaves under the pointer is what the ciphertext stands for. */
  lemma FetchedForLoaded(s: State, next: Handle, id: Id, bytes: nat)
    requires Good(s, next) && id in s.objects && s.objects[id].loaded
    ensures var h := s.objects[id].gpu;
      var d := DeviceOf(Fetched(s, h, bytes), h);
      && h in s.device && Fetched(s, h, bytes).objects == s.objects
      && d.now == s.device[h].Contents() && d.modUp == s.device[h].modUp && !d.Offloaded()
  {
    var h := s.objects[id].gpu;
    LoadedIsRegistered(s, next, id);
    assert s.device.Keys == s.cache.Keys && s.device[h].Valid();
    FetchedForm(s, h, bytes);
    ReloadRestores(s.device[h]);
    hide Good, Fetched, Device.Valid;
  }

  lemma NotLaterClone(s: State, next: Handle, id: Id, twin: Id, fetchBytes: nat, copyBytes: nat)
    requires Good(s, next) && id in s.objects && twin !in s.objects && !s.objects[id].loaded
    ensures Good(Cloned(s, id, twin, fetchBytes, copyBytes, next), next)
  {
    hide NoDuplicates, SumBytes;
  }

  lemma LoadedCases(s: State, next: Handle, id: Id, bytes: nat)
    requires Good(s, next) && id in s.objects
    ensures var o := s.objects[id];
      && (o.loaded ==> o.gpu != 0 && Loaded(s, id, bytes, next) == Enforced(Reloaded(s, o.gpu, bytes), o.gpu) && NextHandle(s, id, next) == next)
      && (o.loaded ==> Reloaded(s, o.gpu, bytes).objects == s.objects)
      && (!o.loaded ==> Loaded(s, id, bytes, next) == Enforced(RegisteredFor(s, id, o.cpu, next, o.cpu, false, bytes), next) && NextHandle(s, id, next) == next + 1)
  {
    LoadedIsRegistered(s, next, id);
    hide Good, Enforced;
  }
}
