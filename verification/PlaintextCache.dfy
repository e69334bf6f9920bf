/** The plaintext cache as functions on its state: what each operation of the context does to the
    recency list, the registry of device plaintexts, the byte count, the pins and the plaintexts
    themselves. The methods that do it step by step are in PlaintextContext. */
module PlaintextCache {
  import opened Recency

  /** Whatever a reader of a plaintext sees. The proofs never look inside. */
  type Content = seq<nat>

  /** The host encoding, and the device handle while loaded. A plaintext that `Decrypt` made has no
      parent context, so its destructor leaves the registry alone. */
  datatype Plain = Plain(cpu: Content, gpu: Handle, loaded: bool, attached: bool)

  datatype State = State(
    budget: nat, resident: nat,
    /** Entries are marked with the owning plaintext, which may be gone. */
    cache: map<Handle, Entry<Id>>,
    lru: seq<Handle>, pinned: set<Handle>,
    /** Depth of open holds. */
    hold: nat,
    device: map<Handle, Content>,
    objects: map<Id, Plain>)

  const EMPTY: State := State(SIZE_MAX, 0, map[], [], {}, 0, map[], map[])

  function DeviceOf(s: State, h: Handle): Content { if h in s.device then s.device[h] else [] }

  // ---- Invariant ----

  ghost predicate Bookkept(s: State) {
    && NoDuplicates(s.lru)
    && (forall h :: h in s.lru <==> h in s.cache)
    && s.resident == SumBytes(s.lru, s.cache)
    && s.pinned <= s.cache.Keys
    && s.device.Keys == s.cache.Keys
  }

  /** A live plaintext is marked loaded exactly while its handle is registered. */
  ghost predicate Owned(s: State) {
    && (forall h :: h in s.cache && s.cache[h].mark in s.objects ==> s.objects[s.cache[h].mark].gpu == h && s.objects[s.cache[h].mark].loaded)
    && (forall o :: o in s.objects && s.objects[o].loaded ==> s.objects[o].gpu in s.cache && s.cache[s.objects[o].gpu].mark == o)
    && (forall o :: o in s.objects && !s.objects[o].loaded ==> s.objects[o].gpu == 0)
  }

  ghost predicate HandlesBelow(s: State, next: Handle) {
    forall h :: h in s.cache ==> 0 < h < next
  }

  /** The device copy of a loaded plaintext is its host encoding. */
  ghost predicate Faithful(s: State) {
    forall h :: h in s.cache && h in s.device && s.cache[h].mark in s.objects ==> s.device[h] == s.objects[s.cache[h].mark].cpu
  }

  ghost predicate Valid(s: State, next: Handle) {
    Bookkept(s) && Owned(s) && HandlesBelow(s, next)
  }

  // ---- What the operations do ----

  function Untracked(s: State, h: Handle): State {
    if h !in s.cache then s
    else s.(resident := Minus(s.resident, Bytes(s.cache, h)), cache := s.cache - {h}, lru := Without(s.lru, h), pinned := s.pinned - {h})
  }

  function Evicted(s: State, h: Handle): State {
    var t := Untracked(s, h);
    t.(device := t.device - {h})
  }

  function Unloaded(objects: map<Id, Plain>, id: Id): map<Id, Plain> {
    if id in objects then objects[id := objects[id].(gpu := 0, loaded := false)] else objects
  }

  function Offloaded(s: State, h: Handle): State {
    if h !in s.cache then s else Evicted(s.(objects := Unloaded(s.objects, s.cache[h].mark)), h)
  }

  /** The plaintexts whose handles are not kept, marked unloaded. */
  function Forgotten(objects: map<Id, Plain>, keep: seq<Handle>): map<Id, Plain> {
    map o | o in objects :: if objects[o].loaded && objects[o].gpu !in keep then objects[o].(gpu := 0, loaded := false) else objects[o]
  }

  /** Everything outside `keep` offloaded, in any order. */
  function EvictTo(s: State, keep: seq<Handle>): State {
    s.(resident := SumBytes(keep, s.cache), cache := Restrict(s.cache, keep), lru := keep,
       device := Restrict(s.device, keep), objects := Forgotten(s.objects, keep))
  }

  function Exempt(s: State, protect: Handle): set<Handle> { s.pinned + {protect} }

  function Enforced(s: State, protect: Handle): State
  {
    if s.budget == SIZE_MAX || s.hold > 0 then s
    else EvictTo(s, Survivors(s.lru, s.cache, Exempt(s, protect), s.resident, s.budget))
  }

  function Registered(s: State, id: Id, bytes: nat, h: Handle): State
    requires id in s.objects
  {
    var p := s.objects[id];
    s.(resident := s.resident + bytes, cache := s.cache[h := Entry(bytes, id)], lru := [h] + s.lru,
       device := s.device[h := p.cpu], objects := s.objects[id := p.(gpu := h, loaded := true)])
  }

  function Loaded(s: State, id: Id, bytes: nat, h: Handle): (t: State)
    requires id in s.objects
    ensures t.objects.Keys == s.objects.Keys
  {
    if s.objects[id].loaded then s else Enforced(Registered(s, id, bytes, h), h)
  }

  /** Only a registration takes a handle. */
  function NextHandle(s: State, id: Id, next: Handle): Handle
    requires id in s.objects
  {
    if s.objects[id].loaded then next else next + 1
  }

  function Touched(s: State, h: Handle): State {
    if h in s.cache then s.(lru := [h] + Without(s.lru, h)) else s
  }

  // ---- The invariant is kept ----

  /** The saturating subtraction never clips: what is subtracted is part of the sum. */
  lemma BookkeptEvicted(s: State, h: Handle)
    requires Bookkept(s)
    ensures Bookkept(Evicted(s, h))
    ensures h in s.cache ==> s.cache[h].bytes <= s.resident && Evicted(s, h).resident == s.resident - s.cache[h].bytes
    ensures h !in Evicted(s, h).cache
  {
    if h in s.cache {
      WithoutStays(s.lru, h);
      WithoutSum(s.lru, h, s.cache);
      SumAgrees(Without(s.lru, h), s.cache, s.cache - {h});
    }
  }

  lemma ValidOffloaded(s: State, next: Handle, h: Handle)
    requires Valid(s, next)
    ensures Valid(Offloaded(s, h), next) && h !in Offloaded(s, h).cache
    ensures Faithful(s) ==> Faithful(Offloaded(s, h))
  {
    if h in s.cache {
      hide Bookkept, Owned, HandlesBelow, Faithful, Offloaded, Evicted;
      var t := s.(objects := Unloaded(s.objects, s.cache[h].mark));
      BookkeptObjects(s, t);
      BookkeptEvicted(t, h);
      OffloadedForm(s, h);
      OffloadedOwned(s, Offloaded(s, h), next, h);
    }
  }

  lemma BookkeptObjects(s: State, t: State)
    requires Bookkept(s) && t == s.(objects := t.objects)
    ensures Bookkept(t)
  {
    hide NoDuplicates, SumBytes;
  }

  lemma OffloadedForm(s: State, h: Handle)
    requires h in s.cache
    ensures var t := Offloaded(s, h);
      && t == Evicted(s.(objects := Unloaded(s.objects, s.cache[h].mark)), h)
      && t.cache == s.cache - {h} && t.device == s.device - {h} && t.objects == Unloaded(s.objects, s.cache[h].mark)
  {
    hide Without, Unloaded;
  }

  lemma OffloadedOwned(s: State, t: State, next: Handle, h: Handle)
    requires Owned(s) && h in s.cache && t.cache == s.cache - {h} && t.device == s.device - {h}
    requires t.objects == Unloaded(s.objects, s.cache[h].mark)
    ensures Owned(t) && (HandlesBelow(s, next) ==> HandlesBelow(t, next)) && (Faithful(s) ==> Faithful(t))
  {
  }

  lemma BookkeptTouched(s: State, h: Handle)
    requires Bookkept(s)
    ensures Bookkept(Touched(s, h))
  {
    if h in s.cache {
      TouchedOrder(s.lru, h);
      TouchedSum(s.lru, h, s.cache);
      hide NoDuplicates, Without, SumBytes;
    }
  }

  lemma ValidTouched(s: State, next: Handle, h: Handle)
    requires Valid(s, next)
    ensures Valid(Touched(s, h), next)
    ensures Faithful(s) ==> Faithful(Touched(s, h))
  {
    hide Bookkept, Owned, HandlesBelow, Faithful, Touched;
    BookkeptTouched(s, h);
    TouchedForm(s, h);
    SameRegistry(s, Touched(s, h), next);
  }

  lemma TouchedForm(s: State, h: Handle)
    ensures var t := Touched(s, h); t.cache == s.cache && t.device == s.device && t.objects == s.objects
  {
    hide Without;
  }

  /** Owners and contents have nothing to do with the recency list. */
  lemma SameRegistry(s: State, t: State, next: Handle)
    requires t.cache == s.cache && t.device == s.device && t.objects == s.objects
    ensures Owned(t) == Owned(s) && HandlesBelow(t, next) == HandlesBelow(s, next) && Faithful(t) == Faithful(s)
  {
  }

  lemma BookkeptRegistered(s: State, id: Id, bytes: nat, h: Handle)
    requires Bookkept(s) && id in s.objects && h !in s.cache
    ensures var t := Registered(s, id, bytes, h);
      && Bookkept(t) && t.resident == s.resident + bytes && t.cache[h].bytes == bytes
      && |t.lru| > 0 && t.lru[0] == h && t.lru[1..] == s.lru
  {
    PushFront(s.lru, s.cache, h, Entry(bytes, id));
    hide NoDuplicates, SumBytes;
  }

  lemma OwnedRegistered(s: State, id: Id, bytes: nat, h: Handle)
    requires Owned(s) && id in s.objects && !s.objects[id].loaded && h !in s.cache
    ensures Owned(Registered(s, id, bytes, h))
    ensures Faithful(s) ==> Faithful(Registered(s, id, bytes, h))
  {
  }

  lemma ValidRegistered(s: State, next: Handle, id: Id, bytes: nat, h: Handle)
    requires Valid(s, next) && id in s.objects && !s.objects[id].loaded && next <= h && h > 0
    ensures Valid(Registered(s, id, bytes, h), h + 1)
    ensures Faithful(s) ==> Faithful(Registered(s, id, bytes, h))
  {
    HandleIsNew(s, next, id, bytes, h);
    BookkeptRegistered(s, id, bytes, h);
    OwnedRegistered(s, id, bytes, h);
    hide Bookkept, Owned, Faithful, HandlesBelow, Registered;
  }

  lemma HandleIsNew(s: State, next: Handle, id: Id, bytes: nat, h: Handle)
    requires HandlesBelow(s, next) && id in s.objects && next <= h && h > 0
    ensures h !in s.cache && HandlesBelow(Registered(s, id, bytes, h), h + 1)
  {
  }

  lemma ValidEvictTo(s: State, next: Handle, keep: seq<Handle>)
    requires Valid(s, next) && NoDuplicates(keep) && (forall h :: h in keep ==> h in s.cache) && forall h :: h in s.pinned ==> h in keep
    ensures Valid(EvictTo(s, keep), next)
    ensures Faithful(s) ==> Faithful(EvictTo(s, keep))
  {
    SumAgrees(keep, s.cache, EvictTo(s, keep).cache);
  }

  lemma ValidEnforced(s: State, next: Handle, protect: Handle)
    requires Valid(s, next)
    ensures Valid(Enforced(s, protect), next)
    ensures Faithful(s) ==> Faithful(Enforced(s, protect))
  {
    if s.budget != SIZE_MAX && s.hold == 0 {
      SurvivorsDistinct(s.lru, s.cache, Exempt(s, protect), s.resident, s.budget);
      var keep := Survivors(s.lru, s.cache, Exempt(s, protect), s.resident, s.budget);
      hide Survivors;
      ValidEvictTo(s, next, keep);
    }
  }

  /** What is protected or pinned stays registered, with its contents and owner as they were. */
  lemma ExemptSurvives(s: State, protect: Handle, h: Handle)
    requires Bookkept(s) && Owned(s) && h in s.cache && (h == protect || h in s.pinned)
    ensures var t := Enforced(s, protect);
      && h in t.cache && h in t.device && t.cache[h] == s.cache[h] && t.device[h] == s.device[h]
      && (s.cache[h].mark in s.objects ==> s.cache[h].mark in t.objects && t.objects[s.cache[h].mark] == s.objects[s.cache[h].mark])
  {
    assert h in s.lru && h in Exempt(s, protect);
  }

  /** What every plaintext holds, cached or not. */
  function Encodings(s: State): map<Id, Content> { map o | o in s.objects :: s.objects[o].cpu }

  ghost predicate SameEncodings(s: State, t: State) { Encodings(s) == Encodings(t) }

  lemma RegisteredFacts(s: State, next: Handle, id: Id, bytes: nat, h: Handle)
    requires Valid(s, next) && id in s.objects && next <= h
    ensures var r := Registered(s, id, bytes, h);
      && SameEncodings(s, r) && h in r.cache && r.cache[h].mark == id && h in r.device && r.device[h] == s.objects[id].cpu
      && id in r.objects && r.objects[id] == s.objects[id].(gpu := h, loaded := true)
  {
  }

  lemma FreshlyLoaded(s: State, next: Handle, id: Id, bytes: nat)
    requires Valid(s, next) && id in s.objects && next > 0 && !s.objects[id].loaded
    ensures var t := Enforced(Registered(s, id, bytes, next), next);
      && Valid(t, next + 1) && SameEncodings(s, t) && (Faithful(s) ==> Faithful(t))
      && t.objects[id] == s.objects[id].(gpu := next, loaded := true) && next in t.device && t.device[next] == s.objects[id].cpu
  {
    hide *;
    var r := Registered(s, id, bytes, next);
    RegisteredFacts(s, next, id, bytes, next);
    ValidRegistered(s, next, id, bytes, next);
    ValidEnforced(r, next + 1, next);
    ValidParts(r, next + 1);
    ExemptSurvives(r, next, next);
    EnforcedEncodings(r, next);
    SameTwice(s, r, Enforced(r, next));
  }

  lemma ValidParts(s: State, next: Handle)
    requires Valid(s, next)
    ensures Bookkept(s) && Owned(s)
  {
  }

  lemma EncodingOf(s: State, t: State, id: Id)
    requires SameEncodings(s, t) && id in s.objects
    ensures id in t.objects && t.objects[id].cpu == s.objects[id].cpu
  {
    assert Encodings(t)[id] == Encodings(s)[id];
  }

  lemma SameKeys(s: State, t: State)
    requires Encodings(s) == Encodings(t)
    ensures s.objects.Keys == t.objects.Keys
  {
    assert Encodings(s).Keys == s.objects.Keys && Encodings(t).Keys == t.objects.Keys;
  }

  lemma SameTwice(s: State, t: State, u: State)
    requires SameEncodings(s, t) && SameEncodings(t, u)
    ensures SameEncodings(s, u) && Encodings(s) == Encodings(u)
  {
  }

  /** Loading keeps the invariant and leaves the plaintext loaded, with its encoding on the device:
      the budget never costs the caller the plaintext it is about to use. */
  lemma ValidLoaded(s: State, next: Handle, id: Id, bytes: nat)
    requires Valid(s, next) && id in s.objects && next > 0
    ensures var t := Loaded(s, id, bytes, next);
      && Valid(t, NextHandle(s, id, next)) && SameEncodings(s, t)
      && id in t.objects && t.objects[id].loaded && t.objects[id].gpu in t.device
      && (Faithful(s) ==> Faithful(t) && t.device[t.objects[id].gpu] == s.objects[id].cpu)
  {
    if !s.objects[id].loaded {
      FreshlyLoaded(s, next, id, bytes);
      hide Enforced, Registered, Valid, Faithful, Bookkept, Owned, HandlesBelow;
    }
  }

  lemma EnforcedEncodings(s: State, protect: Handle)
    requires Bookkept(s)
    ensures SameEncodings(s, Enforced(s, protect))
  {
  }
  // ---- Holds, pins, budgets and the life of a plaintext ----

  function HoldOpened(s: State): State { s.(hold := s.hold + 1) }

  /** Closing the outermost hold enforces the budget. */
  function HoldClosed(s: State): State {
    var t := s.(hold := Minus(s.hold, 1));
    if t.hold == 0 then Enforced(t, 0) else t
  }

  function Pinned(s: State, id: Id): State
    requires id in s.objects
  {
    if s.objects[id].loaded then s.(pinned := s.pinned + {s.objects[id].gpu}) else s
  }

  function Unpinned(s: State, id: Id): State
    requires id in s.objects
  {
    if s.objects[id].gpu != 0 then Enforced(s.(pinned := s.pinned - {s.objects[id].gpu}), 0) else s
  }

  function AllOffloaded(s: State): State { EvictTo(s, Keep(s.lru, s.pinned * s.cache.Keys)) }

  function BudgetSet(s: State, bytes: nat): State
  {
    Enforced(s.(budget := bytes), 0)
  }

  function Created(s: State, id: Id, content: Content, attached: bool): State {
    s.(objects := s.objects[id := Plain(content, 0, false, attached)])
  }

  /** The destructor: the device copy goes too, if the plaintext knows its context. */
  function Destroyed(s: State, id: Id): State
    requires id in s.objects
  {
    var t := if s.objects[id].loaded && s.objects[id].attached then Evicted(s, s.objects[id].gpu) else s;
    t.(objects := t.objects - {id})
  }

  ghost predicate Good(s: State, next: Handle) { Valid(s, next) && Faithful(s) && next > 0 }

  lemma GoodBooks(s: State, next: Handle)
    requires Good(s, next)
    ensures Bookkept(s) && s.device.Keys == s.cache.Keys && forall h :: h in s.cache ==> h in s.lru
  {
    hide NoDuplicates, SumBytes;
  }

  lemma GoodLater(s: State, next: Handle, later: Handle)
    requires Good(s, next) && next <= later
    ensures Good(s, later)
  {
    hide Bookkept, Owned, Faithful;
  }

  lemma GoodHoldOpened(s: State, next: Handle)
    requires Good(s, next)
    ensures Good(HoldOpened(s), next) && SameEncodings(s, HoldOpened(s))
  {
    hide NoDuplicates, SumBytes;
  }

  lemma GoodEnforced(s: State, next: Handle, protect: Handle)
    requires Good(s, next)
    ensures Good(Enforced(s, protect), next) && SameEncodings(s, Enforced(s, protect))
  {
    ValidEnforced(s, next, protect);
    EnforcedEncodings(s, protect);
    hide Enforced, Bookkept, Owned, Faithful, HandlesBelow, SameEncodings;
  }

  lemma GoodHoldClosed(s: State, next: Handle)
    requires Good(s, next)
    ensures Good(HoldClosed(s), next) && SameEncodings(s, HoldClosed(s))
  {
    var t := s.(hold := Minus(s.hold, 1));
    assert Good(t, next) && SameEncodings(s, t);
    hide Good, Enforced, SameEncodings;
    GoodEnforced(t, next, 0);
    SameTwice(s, t, Enforced(t, 0));
  }

  lemma GoodPinned(s: State, next: Handle, id: Id)
    requires Good(s, next) && id in s.objects
    ensures Good(Pinned(s, id), next) && SameEncodings(s, Pinned(s, id))
  {
    hide NoDuplicates, SumBytes;
  }

  lemma GoodUnpinned(s: State, next: Handle, id: Id)
    requires Good(s, next) && id in s.objects
    ensures Good(Unpinned(s, id), next) && SameEncodings(s, Unpinned(s, id))
  {
    var t := s.(pinned := s.pinned - {s.objects[id].gpu});
    assert Good(t, next) && SameEncodings(s, t) by { hide NoDuplicates, SumBytes; }
    hide Good, Enforced, SameEncodings;
    GoodEnforced(t, next, 0);
    SameTwice(s, t, Enforced(t, 0));
  }

  lemma EvictToFacts(s: State, keep: seq<Handle>)
    requires Bookkept(s) && forall h :: h in keep ==> h in s.cache
    ensures SameEncodings(s, EvictTo(s, keep)) && forall h :: h in EvictTo(s, keep).cache <==> h in keep
  {
    hide NoDuplicates, SumBytes;
  }

  /** Offloading everything leaves exactly the pinned plaintexts. */
  lemma GoodAllOffloaded(s: State, next: Handle)
    requires Good(s, next)
    ensures Good(AllOffloaded(s), next) && SameEncodings(s, AllOffloaded(s))
    ensures AllOffloaded(s).cache.Keys == s.pinned == AllOffloaded(s).pinned
  {
    var keep := Keep(s.lru, s.pinned * s.cache.Keys);
    KeepDistinct(s.lru, s.pinned * s.cache.Keys);
    assert forall h :: h in keep <==> h in s.pinned;
    hide NoDuplicates, SumBytes, Keep, Owned, Faithful, HandlesBelow, EvictTo, SameEncodings;
    EvictToFacts(s, keep);
    ValidEvictTo(s, next, keep);
  }

  lemma GoodBudgetSet(s: State, next: Handle, bytes: nat)
    requires Good(s, next)
    ensures Good(BudgetSet(s, bytes), next) && SameEncodings(s, BudgetSet(s, bytes))
  {
    var t := s.(budget := bytes);
    assert Good(t, next) && SameEncodings(s, t);
    hide Good, Enforced, SameEncodings;
    GoodEnforced(t, next, 0);
    SameTwice(s, t, Enforced(t, 0));
  }

  /** No registered device plaintext, not even one that outlived its owner, is marked with id. */
  ghost predicate Unclaimed(s: State, id: Id) { forall h :: h in s.cache ==> s.cache[h].mark != id }

  lemma GoodCreated(s: State, next: Handle, id: Id, content: Content, attached: bool)
    requires Good(s, next) && id !in s.objects && Unclaimed(s, id)
    ensures Good(Created(s, id, content, attached), next) && Encodings(Created(s, id, content, attached)) == Encodings(s)[id := content]
  {
    hide NoDuplicates, SumBytes;
  }

  lemma GoodOffloaded(s: State, next: Handle, h: Handle)
    requires Good(s, next)
    ensures Good(Offloaded(s, h), next) && SameEncodings(s, Offloaded(s, h)) && h !in Offloaded(s, h).cache
    ensures h in s.cache && s.cache[h].mark in s.objects ==>
      s.cache[h].mark in Offloaded(s, h).objects && !Offloaded(s, h).objects[s.cache[h].mark].loaded
  {
    ValidOffloaded(s, next, h);
    OffloadedEncodings(s, h);
    hide Bookkept, Owned, Faithful, HandlesBelow, Offloaded, SameEncodings;
  }

  lemma OffloadedEncodings(s: State, h: Handle)
    ensures SameEncodings(s, Offloaded(s, h))
    ensures h in s.cache && s.cache[h].mark in s.objects ==>
      s.cache[h].mark in Offloaded(s, h).objects && !Offloaded(s, h).objects[s.cache[h].mark].loaded
  {
    if h in s.cache {
      OffloadedForm(s, h);
      hide Evicted;
    }
  }

  /** Evicting without resetting the plaintext is as good as offloading when it is dropped at once. */
  lemma ThroughOffloaded(s: State, next: Handle, id: Id)
    requires Good(s, next) && id in s.objects && s.objects[id].loaded
    ensures var t := Offloaded(s, s.objects[id].gpu);
      && Good(t, next) && SameEncodings(s, t) && id in t.objects
      && Evicted(s, s.objects[id].gpu).(objects := s.objects - {id}) == t.(objects := t.objects - {id})
  {
    hide *;
    OwnMark(s, next, id);
    OffloadedIsEvicted(s, s.objects[id].gpu, id);
    GoodOffloaded(s, next, s.objects[id].gpu);
  }

  lemma OwnMark(s: State, next: Handle, id: Id)
    requires Good(s, next) && id in s.objects && s.objects[id].loaded
    ensures s.objects[id].gpu in s.cache && s.cache[s.objects[id].gpu].mark == id
  {
    hide Bookkept, HandlesBelow, Faithful;
  }

  lemma OffloadedIsEvicted(s: State, h: Handle, id: Id)
    requires h in s.cache && s.cache[h].mark == id && id in s.objects
    ensures var t := Offloaded(s, h);
      && id in t.objects && Evicted(s, h).(objects := s.objects - {id}) == t.(objects := t.objects - {id})
  {
    hide Without;
    var t := Offloaded(s, h);
    assert t.objects == s.objects[id := s.objects[id].(gpu := 0, loaded := false)];
    assert s.objects - {id} == t.objects - {id};
  }

  lemma GoodDropped(s: State, next: Handle, id: Id)
    requires Good(s, next) && id in s.objects
    ensures Good(s.(objects := s.objects - {id}), next) && Encodings(s.(objects := s.objects - {id})) == Encodings(s) - {id}
  {
    hide NoDuplicates, SumBytes;
  }

  lemma GoodDestroyed(s: State, next: Handle, id: Id)
    requires Good(s, next) && id in s.objects
    ensures Good(Destroyed(s, id), next) && Encodings(Destroyed(s, id)) == Encodings(s) - {id}
  {
    if s.objects[id].loaded && s.objects[id].attached {
      hide Good, Offloaded, Encodings;
      ThroughOffloaded(s, next, id);
      GoodDropped(Offloaded(s, s.objects[id].gpu), next, id);
    } else {
      hide Good, Encodings;
      GoodDropped(s, next, id);
    }
  }

  /** The device copy of a destroyed plaintext stays registered exactly when the plaintext was loaded
      and did not know its context, as a decrypted one does not. */
  lemma DestroyedStaysRegistered(s: State, next: Handle, id: Id)
    requires Good(s, next) && id in s.objects
    ensures var h, t := s.objects[id].gpu, Destroyed(s, id);
      && (h in t.cache <==> s.objects[id].loaded && !s.objects[id].attached)
      && (h in t.device <==> h in t.cache)
  {
    LoadedIsTracked(s, next, id);
    if s.objects[id].loaded && s.objects[id].attached {
      BookkeptEvicted(s, s.objects[id].gpu);
    }
    hide Good, Bookkept, Untracked;
  }

  lemma LoadedIsTracked(s: State, next: Handle, id: Id)
    requires Good(s, next) && id in s.objects
    ensures Bookkept(s) && s.device.Keys == s.cache.Keys
    ensures s.objects[id].gpu in s.cache <==> s.objects[id].loaded
  {
    hide NoDuplicates, SumBytes, Faithful;
  }

  lemma GoodFetched(s: State, next: Handle, h: Handle)
    requires Good(s, next)
    ensures Good(Touched(s, h), next) && SameEncodings(s, Touched(s, h))
  {
    ValidTouched(s, next, h);
    hide NoDuplicates, SumBytes;
  }

  // ---- Under a hold ----

  /** While a hold is open, loading only adds to the registry: nothing fetched earlier in the
      operation can go. */
  lemma HoldKeepsRegistry(s: State, next: Handle, id: Id, bytes: nat)
    requires Valid(s, next) && id in s.objects && s.hold > 0
    ensures var t := Loaded(s, id, bytes, next);
      && t.hold == s.hold
      && (forall h :: h in s.device ==> h in t.device && t.device[h] == s.device[h])
      && forall o :: o in s.objects && s.objects[o].loaded ==> t.objects[o] == s.objects[o]
  {
    hide NoDuplicates, SumBytes;
  }

  /** Plaintext id is on the device with its encoding. */
  ghost predicate Uploaded(s: State, id: Id) {
    id in s.objects && s.objects[id].loaded && s.objects[id].gpu in s.device && s.device[s.objects[id].gpu] == s.objects[id].cpu
  }

  /** Nothing that was registered is lost or changed. */
  ghost predicate Kept(s: State, t: State) {
    && (forall h :: h in s.device ==> h in t.device && t.device[h] == s.device[h])
    && forall o :: Uploaded(s, o) ==> Uploaded(t, o)
  }

  ghost predicate Grows(s: State, t: State) { t.hold == s.hold && Kept(s, t) }

  lemma KeptItself(s: State)
    ensures Kept(s, s)
  {
  }

  lemma ClosedObjects(s: State)
    ensures HoldClosed(s).objects.Keys == s.objects.Keys
  {
  }

  lemma KeptTwice(s: State, t: State, u: State)
    requires Kept(s, t) && Kept(t, u)
    ensures Kept(s, u)
  {
    hide Uploaded;
  }

  /** Opening a hold, or closing one that is not the outermost, evicts nothing. */
  lemma InnerHoldKeeps(s: State)
    ensures Kept(s, HoldOpened(s)) && (s.hold > 1 ==> Kept(s, HoldClosed(s)))
    ensures HoldOpened(s).hold == s.hold + 1 && (s.hold > 1 ==> HoldClosed(s).hold == s.hold - 1)
  {
    hide Enforced;
  }

  lemma LoadedUnderHold(s: State, next: Handle, id: Id, bytes: nat)
    requires Good(s, next) && id in s.objects && s.hold > 0
    ensures var t := Loaded(s, id, bytes, next);
      && Good(t, NextHandle(s, id, next)) && next <= NextHandle(s, id, next)
      && SameEncodings(s, t) && Uploaded(t, id) && Grows(s, t)
  {
    hide Loaded, Valid, Faithful, Encodings, SameEncodings;
    ValidLoaded(s, next, id, bytes);
    HoldKeepsRegistry(s, next, id, bytes);
    EncodingOf(s, Loaded(s, id, bytes, next), id);
  }

  lemma GrowsTouched(s: State, h: Handle)
    ensures Grows(s, Touched(s, h))
  {
    hide Without;
  }

  lemma GrowsTwice(s: State, t: State, u: State)
    requires Grows(s, t) && Grows(t, u)
    ensures Grows(s, u)
    ensures forall o :: Uploaded(t, o) ==> Uploaded(u, o)
  {
    hide Uploaded;
  }

  // ---- Changing a host encoding ----

  /** `Decrypt` into an existing plaintext: a loaded one is refused. */
  function Decrypted(s: State, id: Id, content: Content): State
    requires id in s.objects
  {
    if s.objects[id].loaded then s else EncodingSet(s, id, content)
  }

  lemma GoodDecrypted(s: State, next: Handle, id: Id, content: Content)
    requires Good(s, next) && id in s.objects
    ensures Good(Decrypted(s, id, content), next)
    ensures !s.objects[id].loaded ==> Encodings(Decrypted(s, id, content)) == Encodings(s)[id := content]
  {
    hide NoDuplicates, SumBytes;
  }

  /** So the cache can be told from no cache here: a plaintext that some operation has used accepts a
      decryption after an eviction and refuses it before. */
  lemma DecryptSeesTheCache(s: State, next: Handle, id: Id, content: Content)
    requires Good(s, next) && id in s.objects && s.objects[id].loaded && s.objects[id].gpu !in s.pinned && content != s.objects[id].cpu
    ensures Encodings(Decrypted(s, id, content)) == Encodings(s)
    ensures id in AllOffloaded(s).objects && Encodings(Decrypted(AllOffloaded(s), id, content)) == Encodings(s)[id := content] != Encodings(s)
  {
    GoodAllOffloaded(s, next);
    OffloadedIsUnloaded(s, next, id);
    assert Encodings(s)[id] == s.objects[id].cpu;
    GoodDecrypted(AllOffloaded(s), next, id, content);
    hide AllOffloaded, Good, Valid, Decrypted;
  }

  // ---- Which plaintexts may have been uploaded ----

  /** Only plaintexts in `used` are, or ever were, owners of registered device plaintexts. */
  ghost predicate Traced(s: State, used: set<Id>) { forall h :: h in s.cache ==> s.cache[h].mark in used }

  /** The condition a caller can check: a plaintext no operation has used is not loaded. */
  lemma UnusedIsUnloaded(s: State, next: Handle, used: set<Id>, id: Id)
    requires Good(s, next) && Traced(s, used) && id !in used
    ensures Unclaimed(s, id) && (id in s.objects ==> !s.objects[id].loaded)
  {
    hide NoDuplicates, SumBytes;
  }

  lemma TracedLoaded(s: State, used: set<Id>, id: Id, bytes: nat, h: Handle)
    requires Traced(s, used) && id in s.objects
    ensures Traced(Loaded(s, id, bytes, h), used + {id})
  {
  }

  lemma TracedSmaller(s: State, t: State, used: set<Id>)
    requires Traced(s, used) && forall h :: h in t.cache ==> h in s.cache && t.cache[h] == s.cache[h]
    ensures Traced(t, used)
  {
  }

  /** `SetSlots` and `SetLength` change the host encoding only. */
  function EncodingSet(s: State, id: Id, content: Content): State
    requires id in s.objects
  {
    s.(objects := s.objects[id := s.objects[id].(cpu := content)])
  }

  /** The device copy then stays what it was, so the change is safe exactly on a plaintext that is not
      loaded, or when it changes nothing. */
  lemma EncodingSetIsFaithful(s: State, next: Handle, id: Id, content: Content)
    requires Good(s, next) && id in s.objects
    ensures Valid(EncodingSet(s, id, content), next)
    ensures Faithful(EncodingSet(s, id, content)) <==> !s.objects[id].loaded || content == s.objects[id].cpu
  {
    var t := EncodingSet(s, id, content);
    assert Valid(t, next) by { hide NoDuplicates, SumBytes, Faithful; }
    if s.objects[id].loaded {
      var h := s.objects[id].gpu;
      assert h in s.cache && s.cache[h].mark == id && s.device[h] == s.objects[id].cpu;
      assert t.device[h] == s.objects[id].cpu && t.objects[t.cache[h].mark].cpu == content;
    }
    hide NoDuplicates, SumBytes;
  }
  /** ... and on a plaintext that is loaded and not pinned a change does show: the next use reads the
      old encoding, unless an eviction came in between. */
  lemma StaleEncodingShows(s: State, next: Handle, id: Id, content: Content, bytes: nat)
    requires Good(s, next) && id in s.objects && s.objects[id].loaded && s.objects[id].gpu !in s.pinned
    ensures var t := EncodingSet(s, id, content);
      && DeviceOf(Loaded(t, id, bytes, next), Loaded(t, id, bytes, next).objects[id].gpu) == s.objects[id].cpu
      && DeviceOf(Loaded(AllOffloaded(t), id, bytes, next), Loaded(AllOffloaded(t), id, bytes, next).objects[id].gpu) == content
  {
    var t := EncodingSet(s, id, content);
    var h := s.objects[id].gpu;
    assert Loaded(t, id, bytes, next) == t && h in s.cache && s.device[h] == s.objects[id].cpu;
    EncodingSetIsFaithful(s, next, id, content);
    OffloadedIsUnloaded(t, next, id);
    var u := AllOffloaded(t);
    hide AllOffloaded, Owned, Bookkept, HandlesBelow, Faithful;
    FreshlyLoaded(u, next, id, bytes);
    hide Enforced, Registered;
  }

  lemma OffloadedIsUnloaded(s: State, next: Handle, id: Id)
    requires Valid(s, next) && id in s.objects && (s.objects[id].loaded ==> s.objects[id].gpu !in s.pinned)
    ensures var t := AllOffloaded(s);
      Valid(t, next) && id in t.objects && !t.objects[id].loaded && t.objects[id].cpu == s.objects[id].cpu
  {
    KeepDistinct(s.lru, s.pinned * s.cache.Keys);
    ValidEvictTo(s, next, Keep(s.lru, s.pinned * s.cache.Keys));
    hide NoDuplicates, SumBytes;
  }

  // ---- The budget ----

  /** Enforcing takes strictly the least recently used that are neither pinned nor protected, no more
      than the budget asks for, and ends within the budget or with only exempt plaintexts left. */
  lemma EnforcedTakesTheOldest(s: State, next: Handle, protect: Handle) returns (cut: nat)
    requires Valid(s, next) && s.budget != SIZE_MAX && s.hold == 0
    ensures var t := Enforced(s, protect);
      && (forall h :: h in t.lru ==> h in s.lru)
      && IsCut(s.lru, t.lru, s.cache, Exempt(s, protect), 0, s.budget, cut)
      && t.resident == SumBytes(t.lru, s.cache)
      && (t.resident <= s.budget || forall h :: h in t.lru ==> h == protect || h in s.pinned)
  {
    cut := OldestGo(s.lru, s.cache, Exempt(s, protect), s.resident, s.budget, 0);
    hide Survivors, SumBytes, Keep, NoDuplicates;
  }

  /** The budget has been enforced on s, sparing `protect`: nothing happens without a limit or under a
      hold; otherwise a prefix of the recency list stays, and of the rest only what is pinned or
      protected; what went last was still needed to meet the budget, and now it is met unless only pinned
      and protected plaintexts are left. */
  ghost predicate BudgetApplied(s: State, t: State, protect: Handle) {
    if s.budget == SIZE_MAX || s.hold > 0 then t == s
    else
      && t.budget == s.budget && t.hold == s.hold && t.pinned == s.pinned
      && (forall h :: h in t.lru ==> h in s.lru)
      && (exists cut :: IsCut(s.lru, t.lru, s.cache, s.pinned + {protect}, 0, s.budget, cut))
      && t.resident == SumBytes(t.lru, s.cache)
      && (t.resident <= s.budget || forall h :: h in t.lru ==> h == protect || h in s.pinned)
  }

  lemma EnforcedApplies(s: State, next: Handle, protect: Handle)
    requires Good(s, next)
    ensures BudgetApplied(s, Enforced(s, protect), protect)
  {
    if s.budget != SIZE_MAX && s.hold == 0 {
      var cut := EnforcedTakesTheOldest(s, next, protect);
      assert IsCut(s.lru, Enforced(s, protect).lru, s.cache, s.pinned + {protect}, 0, s.budget, cut);
    }
    hide IsCut, SumBytes, Survivors, Bookkept, Owned, Faithful, HandlesBelow;
  }

  /** Closing the outermost hold enforces the budget; closing another one only counts down. */
  lemma ClosingApplies(s: State, next: Handle)
    requires Good(s, next) && s.hold > 0
    ensures BudgetApplied(s.(hold := s.hold - 1), HoldClosed(s), 0)
  {
    var t := s.(hold := s.hold - 1);
    assert Good(t, next) by { hide NoDuplicates, SumBytes; }
    EnforcedApplies(t, next, 0);
    hide Good, IsCut, SumBytes, Enforced;
  }

  /** A new limit is met at once. */
  lemma NewBudgetApplies(s: State, next: Handle, bytes: nat)
    requires Good(s, next)
    ensures BudgetApplied(s.(budget := bytes), BudgetSet(s, bytes), 0)
  {
    var t := s.(budget := bytes);
    assert Good(t, next) by { hide NoDuplicates, SumBytes; }
    hide Good, Enforced, BudgetApplied;
    EnforcedApplies(t, next, 0);
  }

  /** A plaintext that is uploaded is the most recent one, and room is made for it by the others. */
  lemma LoadingApplies(s: State, next: Handle, id: Id, bytes: nat)
    requires Good(s, next) && id in s.objects && !s.objects[id].loaded
    ensures BudgetApplied(Registered(s, id, bytes, next), Loaded(s, id, bytes, next), next)
  {
    ValidRegistered(s, next, id, bytes, next);
    hide Valid, Faithful, Registered, Enforced, BudgetApplied;
    EnforcedApplies(Registered(s, id, bytes, next), next + 1, next);
  }

  lemma EnforcedPins(s: State, protect: Handle)
    ensures Enforced(s, protect).pinned == s.pinned && Enforced(s, protect).hold == s.hold
  {
    hide Survivors;
  }

  /** Pinning, from the opened hold to the closed one: the plaintext is loaded, pinned and registered. */
  lemma PinnedStays(s: State, next: Handle, id: Id, bytes: nat)
    requires Good(s, next) && id in s.objects
    ensures var t := HoldClosed(Pinned(Loaded(HoldOpened(s), id, bytes, next), id));
      id in t.objects && t.objects[id].loaded && t.objects[id].gpu in t.pinned && t.objects[id].gpu in t.cache
  {
    hide *;
    GoodHoldOpened(s, next);
    var o := HoldOpened(s);
    OpenedObjects(s);
    LoadedUnderHold(o, next, id, bytes);
    var l := Loaded(o, id, bytes, next);
    var n := NextHandle(o, id, next);
    LoadedOwn(l, n, id);
    GoodPinned(l, n, id);
    var p := Pinned(l, id);
    PinnedForm(l, id);
    var q := p.(hold := Minus(p.hold, 1));
    OtherHold(p, n, q);
    ClosedForm(p);
    ExemptSurvives(q, 0, p.objects[id].gpu);
    EnforcedPins(q, 0);
  }

  lemma OpenedObjects(s: State)
    ensures HoldOpened(s).objects == s.objects && HoldOpened(s).hold == s.hold + 1
  {
  }

  lemma LoadedOwn(s: State, next: Handle, id: Id)
    requires Good(s, next) && Uploaded(s, id)
    ensures id in s.objects && s.objects[id].loaded && s.objects[id].gpu in s.cache && s.cache[s.objects[id].gpu].mark == id
  {
    hide NoDuplicates, SumBytes, Faithful;
  }

  lemma PinnedForm(s: State, id: Id)
    requires id in s.objects && s.objects[id].loaded
    ensures Pinned(s, id) == s.(pinned := s.pinned + {s.objects[id].gpu})
  {
  }

  lemma OtherHold(s: State, next: Handle, t: State)
    requires Good(s, next) && t == s.(hold := t.hold)
    ensures Good(t, next) && Bookkept(t) && Owned(t)
  {
    hide NoDuplicates, SumBytes;
  }

  lemma ClosedForm(s: State)
    ensures var t := s.(hold := Minus(s.hold, 1)); HoldClosed(s) == Enforced(t, 0)
  {
    hide Survivors, EvictTo;
  }

  /** Unpinning, likewise: the handle is no longer pinned, and the budget is enforced as after any
      outermost hold. */
  lemma UnpinningApplies(s: State, next: Handle, id: Id)
    requires Good(s, next) && id in s.objects
    ensures var h, t := s.objects[id].gpu, HoldClosed(Unpinned(HoldOpened(s), id));
      h !in t.pinned && BudgetApplied(s.(pinned := s.pinned - {h}), t, 0)
  {
    var h := s.objects[id].gpu;
    var u := s.(pinned := s.pinned - {h});
    assert Good(u, next) && 0 !in s.pinned by { hide NoDuplicates, SumBytes; }
    UnpinnedForm(s, id);
    hide Good, Enforced, BudgetApplied, HoldClosed, Unpinned;
    ClosedForm(Unpinned(HoldOpened(s), id));
    EnforcedApplies(u, next, 0);
    EnforcedPins(u, 0);
  }

  lemma UnpinnedForm(s: State, id: Id)
    requires id in s.objects && 0 !in s.pinned
    ensures Unpinned(HoldOpened(s), id) == s.(hold := s.hold + 1, pinned := s.pinned - {s.objects[id].gpu})
  {
    hide Survivors, EvictTo;
  }

  // ---- The rescanning loop ----

  /** Some way into the loop that started from s: what is gone so far is gone as `EvictTo` says, and
      what is still to go is what `Survivors` says from here. */
  ghost predicate Evicting(s: State, t: State, protect: Handle) {
    && t == EvictTo(s, t.lru)
    && NoDuplicates(t.lru) && (forall h :: h in t.lru ==> h in s.lru) && (forall h :: h in s.pinned ==> h in t.lru)
    && Survivors(t.lru, s.cache, Exempt(s, protect), t.resident, s.budget) == Survivors(s.lru, s.cache, Exempt(s, protect), s.resident, s.budget)
  }

  lemma EvictToAll(s: State, next: Handle)
    requires Valid(s, next)
    ensures EvictTo(s, s.lru) == s
  {
    var t := EvictTo(s, s.lru);
    assert t.cache == s.cache && t.device == s.device && t.objects == s.objects;
  }

  lemma StartEvicting(s: State, next: Handle, protect: Handle)
    requires Valid(s, next)
    ensures Evicting(s, s, protect)
  {
    EvictToAll(s, next);
    hide Survivors, SumBytes, EvictTo;
  }

  lemma TrackedFacts(s: State, next: Handle)
    requires Valid(s, next)
    ensures 0 !in s.lru && 0 !in s.cache && forall h :: h in s.lru ==> h in s.cache && h in s.device
  {
    hide NoDuplicates, SumBytes;
  }

  lemma OffloadedMaps(s: State, keep: seq<Handle>, h: Handle)
    requires h in s.cache && h in keep && h !in s.pinned
    ensures var t, u := Offloaded(EvictTo(s, keep), h), EvictTo(s, Without(keep, h));
      t.cache == u.cache && t.device == u.device && t.lru == u.lru && t.pinned == u.pinned && t.budget == u.budget && t.hold == u.hold
  {
    hide Restrict, SumBytes, Without, Forgotten, Unloaded;
    RestrictWithout(s.cache, keep, h);
    RestrictWithout(s.device, keep, h);
  }

  /** An entry that outlived its owner has nobody to tell. */
  lemma ForgetNone(objects: map<Id, Plain>, keep: seq<Handle>, h: Handle)
    requires forall o :: o in objects && objects[o].loaded ==> objects[o].gpu != h
    ensures Forgotten(objects, keep) == Forgotten(objects, Without(keep, h))
  {
    hide Without;
  }

  lemma ForgetOne(objects: map<Id, Plain>, keep: seq<Handle>, h: Handle, owner: Id)
    requires owner in objects && objects[owner].loaded && objects[owner].gpu == h
    requires forall o :: o in objects && objects[o].loaded && o != owner ==> objects[o].gpu != h
    ensures Unloaded(Forgotten(objects, keep), owner) == Forgotten(objects, Without(keep, h))
  {
    hide Without;
  }

  lemma OffloadedObjects(s: State, keep: seq<Handle>, h: Handle)
    requires Owned(s) && h in s.cache && h in keep
    ensures Offloaded(EvictTo(s, keep), h).objects == EvictTo(s, Without(keep, h)).objects
  {
    if s.cache[h].mark in s.objects {
      ForgetOne(s.objects, keep, h, s.cache[h].mark);
    } else {
      ForgetNone(s.objects, keep, h);
    }
    hide Owned, Restrict, SumBytes, Without, Forgotten, Unloaded;
  }

  lemma OffloadedBytes(s: State, keep: seq<Handle>, h: Handle)
    requires NoDuplicates(keep) && h in keep && h in s.cache
    ensures Offloaded(EvictTo(s, keep), h).resident == EvictTo(s, Without(keep, h)).resident
  {
    Leave(keep, s.cache, h, s.cache);
    assert Bytes(EvictTo(s, keep).cache, h) == Bytes(s.cache, h);
    hide NoDuplicates, SumBytes, Without;
  }

  lemma OffloadedFromEvictTo(s: State, next: Handle, keep: seq<Handle>, h: Handle)
    requires Valid(s, next) && NoDuplicates(keep) && (forall k :: k in keep ==> k in s.lru) && h in keep && h !in s.pinned
    ensures Offloaded(EvictTo(s, keep), h) == EvictTo(s, Without(keep, h))
  {
    OffloadedMaps(s, keep, h);
    OffloadedObjects(s, keep, h);
    OffloadedBytes(s, keep, h);
    assert h in EvictTo(s, keep).cache;
    hide NoDuplicates, SumBytes, Without, Unloaded;
  }

  lemma EvictVictim(s: State, t: State, next: Handle, protect: Handle, at: nat)
    requires Valid(s, next) && Evicting(s, t, protect) && IsVictim(t.lru, Exempt(t, protect), at) && t.resident > t.budget
    ensures Evicting(s, Offloaded(t, t.lru[at]), protect) && |Offloaded(t, t.lru[at]).lru| < |t.lru|
  {
    hide Survivors, SumBytes, NoDuplicates, Offloaded, Valid, Exempt, EvictTo, Without, Bytes;
    EvictingHeader(s, t, protect);
    VictimMayGo(t, protect, at);
    var victim := t.lru[at];
    hide IsVictim;
    EvictOne(t.lru, s.cache, Exempt(s, protect), t.resident, s.budget, at);
    WithoutStays(t.lru, victim);
    WithoutSum(t.lru, victim, s.cache);
    WithoutShorter(t.lru, victim);
    OffloadedFromEvictTo(s, next, t.lru, victim);
    EvictToFields(s, t.lru);
    EvictToFields(s, Without(t.lru, victim));
  }

  lemma EvictToFields(s: State, keep: seq<Handle>)
    ensures var t := EvictTo(s, keep); t.lru == keep && t.resident == SumBytes(keep, s.cache) && t.pinned == s.pinned && t.budget == s.budget
  {
    hide SumBytes;
  }

  lemma EvictingHeader(s: State, t: State, protect: Handle)
    requires Evicting(s, t, protect)
    ensures t.pinned == s.pinned && t.budget == s.budget && t.hold == s.hold && Exempt(t, protect) == Exempt(s, protect)
  {
    hide Survivors, NoDuplicates;
  }

  lemma VictimMayGo(t: State, protect: Handle, at: nat)
    requires IsVictim(t.lru, Exempt(t, protect), at)
    ensures at < |t.lru| && t.lru[at] !in t.pinned && t.lru[at] in t.lru
  {
  }

  lemma EvictedEnough(s: State, t: State, protect: Handle)
    requires Evicting(s, t, protect) && s.budget != SIZE_MAX && s.hold == 0
    requires t.resident <= t.budget || forall h :: h in t.lru ==> h in Exempt(t, protect)
    ensures t == Enforced(s, protect)
  {
    assert t.budget == s.budget && Exempt(t, protect) == Exempt(s, protect);
    if t.resident > t.budget {
      AllExempt(t.lru, s.cache, Exempt(s, protect), t.resident, s.budget);
    } else {
      ExemptStay(t.lru, s.cache, Exempt(s, protect), t.resident, s.budget);
    }
    hide Survivors, NoDuplicates, SumBytes;
  }

  // ---- Offloading everything, in any order ----

  /** The handles in `left` are still to go. */
  ghost predicate Draining(s: State, t: State, left: set<Handle>) {
    t == EvictTo(s, Keep(s.lru, s.pinned * s.cache.Keys + left)) && left !! s.pinned && forall h :: h in left ==> h in s.lru
  }

  lemma StartDraining(s: State, next: Handle)
    requires Valid(s, next)
    ensures Draining(s, s, s.cache.Keys - s.pinned)
  {
    EvictToAll(s, next);
    KeepAll(s.lru, s.pinned * s.cache.Keys + (s.cache.Keys - s.pinned));
    hide NoDuplicates, SumBytes, EvictTo, Keep;
  }

  lemma DrainOne(s: State, t: State, next: Handle, left: set<Handle>, h: Handle)
    requires Valid(s, next) && Draining(s, t, left) && h in left
    ensures Draining(s, Offloaded(t, h), left - {h})
  {
    hide NoDuplicates, SumBytes, EvictTo, Keep, Offloaded, Valid, Without;
    DrainKeep(s, next, left, h);
    OffloadedFromEvictTo(s, next, Keep(s.lru, s.pinned * s.cache.Keys + left), h);
  }

  lemma DrainKeep(s: State, next: Handle, left: set<Handle>, h: Handle)
    requires Valid(s, next) && h in left && left !! s.pinned && forall k :: k in left ==> k in s.lru
    ensures var keep := Keep(s.lru, s.pinned * s.cache.Keys + left);
      && NoDuplicates(keep) && (forall k :: k in keep ==> k in s.lru) && h in keep && h !in s.pinned
      && Keep(s.lru, s.pinned * s.cache.Keys + (left - {h})) == Without(keep, h)
  {
    hide NoDuplicates, SumBytes, Without, Owned, HandlesBelow, Keep;
    var all := s.pinned * s.cache.Keys + left;
    KeepDistinct(s.lru, all);
    KeepLess(s.lru, all, h);
    assert all - {h} == s.pinned * s.cache.Keys + (left - {h});
  }

  lemma Drained(s: State, t: State)
    requires Draining(s, t, {})
    ensures t == AllOffloaded(s)
  {
    assert s.pinned * s.cache.Keys + {} == s.pinned * s.cache.Keys;
    hide Keep, EvictTo;
  }
}
