/** The plaintext side of the context as the source has it: methods that update the recency list, the
    cache map, the pins, the byte count and the registry in place, each proved to do what the function
    of PlaintextCache says. */
module PlaintextContext {
  import opened Recency
  import opened PlaintextCache
  import opened DeviceHandles
  import opened Options

  class Context {
    const handles: Handles
    var cacheBytes: nat
    var residentBytes: nat
    var cache: map<Handle, Entry<Id>>
    var lru: seq<Handle>
    var pinned: set<Handle>
    var cacheHold: nat
    var devicePlaintexts: map<Handle, Content>
    /** The plaintext objects of the API. */
    var plaintexts: map<Id, Plain>

    ghost function State(): PlaintextCache.State
      reads this
    {
      PlaintextCache.State.State(cacheBytes, residentBytes, cache, lru, pinned, cacheHold, devicePlaintexts, plaintexts)
    }

    ghost predicate Valid()
      reads this, handles
    {
      PlaintextCache.Good(State(), handles.next)
    }

    constructor (handles: Handles)
      requires handles.next > 0
      ensures this.handles == handles && Valid() && State() == EMPTY
    {
      this.handles := handles;
      cacheBytes, residentBytes, cache, lru, pinned, cacheHold := SIZE_MAX, 0, map[], [], {}, 0;
      devicePlaintexts, plaintexts := map[], map[];
    }

    // ---- Bookkeeping ----

    /** A handle that was not tracked keeps list and byte count in step. */
    method TrackPlaintext(handle: Handle, owner: Id, bytes: nat)
      modifies this`lru, this`cache, this`residentBytes
      ensures old(Counted(lru, cache, residentBytes) && handle !in lru) ==> Counted(lru, cache, residentBytes)
      ensures lru == [handle] + old(lru) && cache == old(cache)[handle := Entry(bytes, owner)]
      ensures residentBytes == old(residentBytes) + bytes
    {
      if Counted(lru, cache, residentBytes) && handle !in lru {
        CountedTrack(lru, cache, residentBytes, handle, Entry(bytes, owner));
      }
      hide Counted;
      lru := [handle] + lru;
      cache := cache[handle := Entry(bytes, owner)];
      residentBytes := residentBytes + bytes;
    }

    /** Exactly its bytes go, unclipped, and the handle is nowhere left. */
    method UntrackPlaintext(handle: Handle)
      modifies this`lru, this`cache, this`residentBytes, this`pinned
      ensures State() == Untracked(old(State()), handle)
      ensures old(Bookkept(State()) && handle in cache) ==>
              residentBytes == old(residentBytes) - old(cache)[handle].bytes && Counted(lru, cache, residentBytes) && handle !in lru && handle !in pinned
    {
      if handle !in cache {
        return;
      }
      hide Bookkept, Counted, Without, Minus, Bytes;
      LeavesTheBooks(State(), handle);
      var bytes := cache[handle].bytes;
      residentBytes := Minus(residentBytes, bytes);
      lru := Without(lru, handle);
      pinned := pinned - {handle};
      cache := cache - {handle};
    }

    /** The handle becomes the most recent one, the others keep their order and the books stay right. */
    method TouchPlaintext(handle: Handle)
      modifies this`lru
      ensures State() == Touched(old(State()), handle)
      ensures old(Bookkept(State())) ==> Bookkept(State())
      ensures old(Bookkept(State()) && handle in cache) ==> |lru| > 0 && lru[0] == handle && Without(lru, handle) == old(Without(lru, handle))
    {
      if handle !in cache {
        return;
      }
      hide Bookkept, Without, NoDuplicates;
      if Bookkept(State()) {
        TouchedBooks(State(), handle);
      }
      lru := [handle] + Without(lru, handle);
    }

    /** Every path out of the registry goes through here. */
    method EvictDevicePlaintext(handle: Handle) returns (evicted: bool)
      modifies this`lru, this`cache, this`residentBytes, this`pinned, this`devicePlaintexts
      ensures State() == Evicted(old(State()), handle)
      ensures evicted == (handle in old(devicePlaintexts))
      ensures old(Bookkept(State())) ==> Bookkept(State()) && handle !in cache && handle !in devicePlaintexts
    {
      hide Bookkept, Untracked;
      if Bookkept(State()) {
        EvictedGone(State(), handle);
      }
      UntrackPlaintext(handle);
      evicted := handle in devicePlaintexts;
      devicePlaintexts := devicePlaintexts - {handle};
    }

    /** The owner, if it is still there, learns that it is unloaded; no encoding changes. */
    method OffloadPlaintextHandle(handle: Handle) returns (offloaded: bool)
      modifies this
      ensures State() == Offloaded(old(State()), handle)
      ensures old(Valid()) ==> Valid() && SameEncodings(old(State()), State()) && handle !in cache
      ensures offloaded == (handle in old(cache) && handle in old(devicePlaintexts))
    {
      hide Good, SameEncodings, Evicted, Bookkept;
      if Valid() {
        GoodOffloaded(State(), handles.next, handle);
      }
      if handle !in cache {
        return false;
      }
      var owner := cache[handle].mark;
      if owner in plaintexts {
        plaintexts := plaintexts[owner := plaintexts[owner].(gpu := 0, loaded := false)];
      }
      offloaded := EvictDevicePlaintext(handle);
    }

    // ---- The budget ----

    /** The backward scan for a victim: the least recently used handle that may go, 0 if none. */
    method FindVictim(protect: Handle) returns (victim: Handle, ghost at: nat)
      requires 0 !in lru
      ensures victim == 0 ==> forall h :: h in lru ==> h in Exempt(State(), protect)
      ensures victim != 0 ==> IsVictim(lru, Exempt(State(), protect), at) && lru[at] == victim
    {
      victim, at := 0, 0;
      var i := |lru|;
      while i > 0
        invariant 0 <= i <= |lru| && victim == 0
        invariant forall k :: i <= k < |lru| ==> lru[k] in Exempt(State(), protect)
      {
        i := i - 1;
        if lru[i] != protect && lru[i] !in pinned {
          victim, at := lru[i], i;
          break;
        }
      }
    }

    /** Evicts victim after victim until the budget is met. Nothing at all goes while a hold is open. */
    method EnforcePlaintextBudget(protect: Handle)
      requires Valid()
      modifies this
      ensures Valid() && State() == Enforced(old(State()), protect) && BudgetApplied(old(State()), State(), protect)
    {
      GoodEnforced(State(), handles.next, protect);
      EnforcedApplies(State(), handles.next, protect);
      hide BudgetApplied;
      if cacheBytes == SIZE_MAX || cacheHold > 0 {
        return;
      }
      ghost var s := State();
      StartEvicting(s, handles.next, protect);
      hide *;
      while residentBytes > cacheBytes
        invariant Evicting(s, State(), protect)
        decreases |lru|
      {
        EvictingFacts(s, State(), handles.next, protect);
        var victim, at := FindVictim(protect);
        if victim == 0 {
          break;
        }
        EvictVictim(s, State(), handles.next, protect, at);
        var offloaded := OffloadPlaintextHandle(victim);
        if !offloaded {
          break;
        }
      }
      EvictedEnough(s, State(), protect);
    }

    method SetPlaintextCache(bytes: nat)
      requires Valid()
      modifies this
      ensures Valid() && State() == BudgetSet(old(State()), bytes)
      ensures BudgetApplied(old(State()).(budget := bytes), State(), 0)
    {
      NewBudgetApplies(State(), handles.next, bytes);
      GoodBudgetSet(State(), handles.next, bytes);
      WithBudget(State(), handles.next, bytes);
      hide Good, Enforced, BudgetApplied;
      cacheBytes := bytes;
      EnforcePlaintextBudget(0);
    }

    /** Everything but the pinned, whatever order the map yields. */
    method OffloadPlaintexts()
      requires Valid()
      modifies this
      ensures Valid() && State() == AllOffloaded(old(State())) && cache.Keys == pinned == old(pinned)
    {
      hide Good, AllOffloaded, Draining, Offloaded, SameEncodings, PlaintextCache.Valid;
      GoodAllOffloaded(State(), handles.next);
      GoodIsValid(State(), handles.next);
      ghost var s := State();
      StartDraining(s, handles.next);
      var left := cache.Keys - pinned;
      while left != {}
        invariant Draining(s, State(), left)
        decreases |left|
      {
        var handle :| handle in left;
        DrainOne(s, State(), handles.next, left, handle);
        var offloaded := OffloadPlaintextHandle(handle);
        left := left - {handle};
      }
      Drained(s, State());
    }

    // ---- Holds ----

    /** Entering a scope that may keep pointers to device plaintexts. */
    method OpenHold()
      requires Valid()
      modifies this`cacheHold
      ensures Valid() && State() == HoldOpened(old(State())) && cacheHold == old(cacheHold) + 1
    {
      GoodHoldOpened(State(), handles.next);
      cacheHold := cacheHold + 1;
    }

    /** Leaving it: the outermost one enforces the budget. */
    method CloseHold()
      requires Valid() && cacheHold > 0
      modifies this
      ensures Valid() && State() == HoldClosed(old(State()))
      ensures BudgetApplied(old(State()).(hold := old(cacheHold) - 1), State(), 0)
      ensures old(cacheHold) == 1 && cacheBytes != SIZE_MAX ==> residentBytes <= cacheBytes || cache.Keys == pinned
    {
      ClosingApplies(State(), handles.next);
      GoodHoldClosed(State(), handles.next);
      WithHold(State(), handles.next, cacheHold - 1);
      hide Good, Enforced, BudgetApplied;
      cacheHold := cacheHold - 1;
      if cacheHold == 0 {
        EnforcePlaintextBudget(0);
      }
    }

    // ---- The registry ----

    /** A handle that nothing registered or tracked has. */
    method RegisterDevicePlaintext(content: Content) returns (handle: Handle)
      modifies this`devicePlaintexts, handles
      ensures old(Valid()) ==> handle != 0 && handle !in old(devicePlaintexts) && handle !in cache
      ensures handle == old(handles.next) && handles.next == handle + 1
      ensures devicePlaintexts == old(devicePlaintexts)[handle := content]
    {
      if Valid() {
        NextIsNew(State(), handles.next);
      }
      hide Good;
      handle := handles.next;
      handles.next := handles.next + 1;
      devicePlaintexts := devicePlaintexts[handle := content];
    }

    /** The upload: a device copy of the encoding, registered and tracked as most recent. */
    method Upload(id: Id, limbBytes: nat) returns (handle: Handle)
      requires Valid() && id in plaintexts && !plaintexts[id].loaded
      modifies this, handles
      ensures handle == old(handles.next) && handles.next == handle + 1
      ensures Valid() && State() == Registered(old(State()), id, limbBytes, handle)
    {
      GoodRegistered(State(), handles.next, id, limbBytes);
      hide Good;
      var cpu := plaintexts[id].cpu;
      handle := RegisterDevicePlaintext(cpu);
      plaintexts := plaintexts[id := plaintexts[id].(gpu := handle, loaded := true)];
      TrackPlaintext(handle, id, limbBytes);
    }

    /** `limbBytes` is what the uploaded plaintext turns out to take. */
    method LoadPlaintext(id: Id, limbBytes: nat)
      requires Valid() && id in plaintexts
      modifies this, handles
      ensures Valid() && State() == Loaded(old(State()), id, limbBytes, old(handles.next))
      ensures handles.next == NextHandle(old(State()), id, old(handles.next))
      ensures id in plaintexts && plaintexts[id].loaded
      ensures old(plaintexts[id].loaded) ==> State() == old(State())
      ensures old(!plaintexts[id].loaded) ==>
                BudgetApplied(Registered(old(State()), id, limbBytes, old(handles.next)), State(), old(handles.next))
    {
      if !plaintexts[id].loaded {
        LoadingApplies(State(), handles.next, id, limbBytes);
      }
      LoadedCases(State(), handles.next, id, limbBytes);
      hide Good, Loaded, Enforced, Registered, NextHandle, BudgetApplied;
      if plaintexts[id].loaded {
        return;
      }
      var handle := Upload(id, limbBytes);
      EnforcePlaintextBudget(handle);
    }

    /** The one way to a device plaintext; it keeps the recency order for all operations at once. An
        unknown handle is an error. */
    method GetDevicePlaintext(handle: Handle) returns (content: Option<Content>)
      requires Valid()
      modifies this`lru
      ensures Valid() && State() == Touched(old(State()), handle)
      ensures content == if handle in old(devicePlaintexts) then Some(old(devicePlaintexts)[handle]) else None
      ensures handle in old(devicePlaintexts) ==> |lru| > 0 && lru[0] == handle && Without(lru, handle) == old(Without(lru, handle))
    {
      hide Good, Touched, SameEncodings, Bookkept;
      if handle !in devicePlaintexts {
        NotTracked(State(), handles.next, handle);
        return None;
      }
      content := Some(devicePlaintexts[handle]);
      GoodBooks(State(), handles.next);
      GoodFetched(State(), handles.next, handle);
      TouchPlaintext(handle);
    }

    method PinPlaintext(id: Id, pin: bool, limbBytes: nat)
      requires Valid() && id in plaintexts
      modifies this, handles
      ensures Valid()
      ensures State() == (if pin then HoldClosed(Pinned(Loaded(HoldOpened(old(State())), id, limbBytes, old(handles.next)), id))
                          else HoldClosed(Unpinned(HoldOpened(old(State())), id)))
      ensures pin ==> id in plaintexts && plaintexts[id].loaded && plaintexts[id].gpu in pinned && plaintexts[id].gpu in cache
      ensures !pin ==> old(plaintexts[id].gpu) !in pinned && BudgetApplied(old(State()).(pinned := old(pinned - {plaintexts[id].gpu})), State(), 0)
    {
      hide Good, Enforced, Loaded, HoldClosed, SameEncodings, BudgetApplied, Registered;
      ghost var s, next := State(), handles.next;
      PinnedStays(s, next, id, limbBytes);
      UnpinningApplies(s, next, id);
      OpenHold();
      if pin {
        LoadPlaintext(id, limbBytes);
        GoodPinned(State(), handles.next, id);
        if plaintexts[id].loaded {
          pinned := pinned + {plaintexts[id].gpu};
        }
      } else if plaintexts[id].gpu != 0 {
        WithoutPin(State(), handles.next, id);
        pinned := pinned - {plaintexts[id].gpu};
        EnforcePlaintextBudget(0);
      }
      HoldStaysOpen(old(State()), id, limbBytes, old(handles.next));
      CloseHold();
    }

    // ---- The life of a plaintext ----

    /** A new plaintext: encoded by the context, or made by a decryption, which gives it no parent. */
    method Make(id: Id, content: Content, attached: bool)
      requires Valid() && id !in plaintexts && Unclaimed(State(), id)
      modifies this`plaintexts
      ensures Valid() && State() == Created(old(State()), id, content, attached)
    {
      GoodCreated(State(), handles.next, id, content, attached);
      plaintexts := plaintexts[id := Plain(content, 0, false, attached)];
    }

    /** `Decrypt` into an existing plaintext. A loaded one is an error: the source takes it for a sign
        that there are no devices. */
    method DecryptInto(id: Id, content: Content) returns (ok: bool)
      requires Valid() && id in plaintexts
      modifies this`plaintexts
      ensures Valid() && State() == Decrypted(old(State()), id, content)
      ensures ok <==> !old(plaintexts)[id].loaded
    {
      GoodDecrypted(State(), handles.next, id, content);
      NullHandle(State(), handles.next, id);
      if plaintexts[id].loaded {
        return false;
      }
      plaintexts := plaintexts[id := plaintexts[id].(cpu := content, gpu := 0, loaded := false)];
      ok := true;
    }

    /** The destructor of a plaintext. */
    method Destroy(id: Id)
      requires Valid() && id in plaintexts
      modifies this
      ensures Valid() && State() == Destroyed(old(State()), id)
    {
      GoodDestroyed(State(), handles.next, id);
      LoadedHandle(State(), handles.next, id);
      if plaintexts[id].loaded && plaintexts[id].gpu != 0 && plaintexts[id].attached {
        var evicted := EvictDevicePlaintext(plaintexts[id].gpu);
      }
      plaintexts := plaintexts - {id};
    }
  }

  lemma EvictingFacts(s: State, t: State, next: Handle, protect: Handle)
    requires PlaintextCache.Valid(s, next) && Evicting(s, t, protect)
    ensures 0 !in t.lru && forall h :: h in t.lru ==> h in t.cache && h in t.device
  {
    TrackedFacts(s, next);
    hide NoDuplicates, SumBytes, Survivors, Forgotten;
  }

  lemma GoodIsValid(s: State, next: Handle)
    requires Good(s, next)
    ensures PlaintextCache.Valid(s, next)
  {
  }

  lemma TouchedBooks(s: State, h: Handle)
    requires Bookkept(s) && h in s.cache
    ensures var t := Touched(s, h);
      Bookkept(t) && |t.lru| > 0 && t.lru[0] == h && Without(t.lru, h) == Without(s.lru, h)
  {
    BookkeptTouched(s, h);
    TouchedOrder(s.lru, h);
    hide Bookkept, Without;
  }

  lemma EvictedGone(s: State, h: Handle)
    requires Bookkept(s)
    ensures var t := Evicted(s, h); Bookkept(t) && h !in t.cache && h !in t.device
  {
    BookkeptEvicted(s, h);
    hide Bookkept, Untracked;
  }

  lemma LeavesTheBooks(s: State, h: Handle)
    requires h in s.cache
    ensures Bytes(s.cache, h) == s.cache[h].bytes
    ensures Bookkept(s) ==>
      && Minus(s.resident, s.cache[h].bytes) == s.resident - s.cache[h].bytes && h !in Without(s.lru, h)
      && Counted(Without(s.lru, h), s.cache - {h}, s.resident - s.cache[h].bytes)
  {
    if Bookkept(s) {
      assert Counted(s.lru, s.cache, s.resident) && h in s.lru;
      hide Bookkept, Counted, Without;
      CountedLeave(s.lru, s.cache, s.resident, h);
    }
  }

  lemma NextIsNew(s: State, next: Handle)
    requires Good(s, next)
    ensures next != 0 && next !in s.device && next !in s.cache
  {
    hide NoDuplicates, SumBytes;
  }

  lemma NotTracked(s: State, next: Handle, h: Handle)
    requires Good(s, next) && h !in s.device
    ensures Touched(s, h) == s
  {
  }

  lemma NullHandle(s: State, next: Handle, id: Id)
    requires Good(s, next) && id in s.objects
    ensures !s.objects[id].loaded ==> s.objects[id].gpu == 0
  {
  }

  lemma LoadedHandle(s: State, next: Handle, id: Id)
    requires Good(s, next) && id in s.objects
    ensures s.objects[id].loaded ==> s.objects[id].gpu != 0
  {
  }

  lemma WithBudget(s: State, next: Handle, bytes: nat)
    requires Good(s, next)
    ensures Good(s.(budget := bytes), next)
  {
  }

  lemma WithHold(s: State, next: Handle, depth: nat)
    requires Good(s, next)
    ensures Good(s.(hold := depth), next)
  {
  }

  lemma WithoutPin(s: State, next: Handle, id: Id)
    requires Good(s, next) && id in s.objects
    ensures Good(s.(pinned := s.pinned - {s.objects[id].gpu}), next)
  {
    hide NoDuplicates, SumBytes;
  }

  lemma GoodRegistered(s: State, next: Handle, id: Id, bytes: nat)
    requires Good(s, next) && id in s.objects && !s.objects[id].loaded
    ensures Good(Registered(s, id, bytes, next), next + 1)
  {
    ValidRegistered(s, next, id, bytes, next);
    hide PlaintextCache.Valid, Registered, Faithful;
  }

  lemma LoadedCases(s: State, next: Handle, id: Id, bytes: nat)
    requires Good(s, next) && id in s.objects
    ensures id in Loaded(s, id, bytes, next).objects && Loaded(s, id, bytes, next).objects[id].loaded
    ensures s.objects[id].loaded ==> Loaded(s, id, bytes, next) == s && NextHandle(s, id, next) == next
    ensures !s.objects[id].loaded ==> Loaded(s, id, bytes, next) == Enforced(Registered(s, id, bytes, next), next)
    ensures !s.objects[id].loaded ==> NextHandle(s, id, next) == next + 1
  {
    ValidLoaded(s, next, id, bytes);
    hide PlaintextCache.Valid, Enforced, Registered, Faithful;
  }

  lemma HoldStaysOpen(s: State, id: Id, bytes: nat, h: Handle)
    requires id in s.objects
    ensures Pinned(Loaded(HoldOpened(s), id, bytes, h), id).hold > 0 && Unpinned(HoldOpened(s), id).hold > 0
  {
  }
}
