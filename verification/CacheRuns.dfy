/** Runs of the API over both caches. The caches are invisible: what every operation reads is decided
    by the plaintexts and ciphertexts alone, whatever the budgets, the sizes and the pins. */
module CacheRuns {
  import opened Recency
  import opened DeviceRecords
  import opened Options
  import P = PlaintextCache
  import C = CiphertextCache

  /** One use of an object by an operation, with the device bytes measured when it is loaded and when
      it is fetched. */
  datatype Use = Use(id: Id, loadBytes: nat, fetchBytes: nat)

  datatype Event =
    | NewPlaintext(id: Id, encoding: P.Content, attached: bool)
    /** `Decrypt` into a plaintext, or `SetSlots` and `SetLength` on one. */
    | RewritePlaintext(id: Id, encoding: P.Content)
    | LoadPlaintext(id: Id, bytes: nat)
    | DestroyPlaintext(id: Id)
    | PinPlaintext(id: Id, bytes: nat)
    | UnpinPlaintext(id: Id)
    | OffloadPlaintexts
    | SetPlaintextCache(limit: nat)
    | NewCiphertext(id: Id, content: Content)
    | LoadCiphertext(id: Id, bytes: nat)
    /** `Decrypt`, `GetLevel` and the other getters: a fetch of a loaded ciphertext, with no load and no
        budget pass; otherwise the host copy is read. */
    | ReadCiphertext(id: Id, fetchBytes: nat)
    | CloneCiphertext(id: Id, twin: Id, fetchBytes: nat, copyBytes: nat)
    | UnloadCiphertext(id: Id, bytes: nat)
    | DestroyCiphertext(id: Id)
    | OffloadCiphertext(id: Id)
    | ReloadCiphertext(id: Id, bytes: nat)
    | PinCiphertext(id: Id, bytes: nat)
    | UnpinCiphertext(id: Id)
    | OffloadCiphertexts
    | SetCiphertextCache(limit: nat)
    /** An operation: loads its ciphertexts, loads and fetches its plaintexts under a hold, fetches the
        ciphertexts and stores, through each of the pointers, what it computed from everything it read. */
    | Operate(cts: seq<Use>, pts: seq<Use>, compute: (Readings, nat) -> Result)

  /** What an event reads. */
  datatype Readings = Readings(ciphers: seq<Content>, plains: seq<P.Content>)

  /** What an operation leaves in one operand. */
  datatype Result = Result(content: Content, extended: bool)

  const NOTHING: Readings := Readings([], [])

  function Results(compute: (Readings, nat) -> Result, read: Readings, count: nat): (r: seq<Result>)
    ensures |r| == count && forall k :: 0 <= k < count ==> r[k] == compute(read, k)
  {
    seq(count, k requires 0 <= k < count => compute(read, k))
  }

  datatype World = World(plain: P.State, cipher: C.State, next: Handle)

  ghost predicate Good(w: World) { P.Good(w.plain, w.next) && C.Good(w.cipher, w.next) }

  // ---- The reference: no caches at all ----

  /** `used` collects the plaintexts that were ever loaded, pinned or an operand. */
  datatype Reference = Reference(plaintexts: map<Id, P.Content>, ciphertexts: map<Id, C.Seen>, used: set<Id>)

  /** Objects are named when they are made and the name of a used plaintext is not given out again.
      Only a plaintext that was never used may be rewritten: see DecryptSeesTheCache and
      StaleEncodingShows for the others. */
  predicate Enabled(r: Reference, e: Event) {
    match e
    case NewPlaintext(id, _, _) => id !in r.plaintexts && id !in r.used
    case RewritePlaintext(id, _) => id in r.plaintexts && id !in r.used
    case LoadPlaintext(id, _) => id in r.plaintexts
    case DestroyPlaintext(id) => id in r.plaintexts
    case PinPlaintext(id, _) => id in r.plaintexts
    case UnpinPlaintext(id) => id in r.plaintexts
    case NewCiphertext(id, _) => id !in r.ciphertexts
    case LoadCiphertext(id, _) => id in r.ciphertexts
    case ReadCiphertext(id, _) => id in r.ciphertexts
    case CloneCiphertext(id, twin, _, _) => id in r.ciphertexts && twin !in r.ciphertexts
    case UnloadCiphertext(id, _) => id in r.ciphertexts
    case DestroyCiphertext(id) => id in r.ciphertexts
    case OffloadCiphertext(id) => id in r.ciphertexts && !r.ciphertexts[id].extended
    case ReloadCiphertext(id, _) => id in r.ciphertexts
    case PinCiphertext(id, _) => id in r.ciphertexts
    case UnpinCiphertext(id) => id in r.ciphertexts
    case Operate(cts, pts, _) =>
      (forall k :: 0 <= k < |cts| ==> cts[k].id in r.ciphertexts) && forall k :: 0 <= k < |pts| ==> pts[k].id in r.plaintexts
    case _ => true
  }

  function CipherContents(r: map<Id, C.Seen>, uses: seq<Use>): seq<Content>
    requires forall k :: 0 <= k < |uses| ==> uses[k].id in r
  {
    seq(|uses|, k requires 0 <= k < |uses| => r[uses[k].id].content)
  }

  function PlainContents(r: map<Id, P.Content>, uses: seq<Use>): seq<P.Content>
    requires forall k :: 0 <= k < |uses| ==> uses[k].id in r
  {
    seq(|uses|, k requires 0 <= k < |uses| => r[uses[k].id])
  }

  function ReferenceReads(r: Reference, e: Event): Readings
    requires Enabled(r, e)
  {
    match e
    case Operate(cts, pts, _) => Readings(CipherContents(r.ciphertexts, cts), PlainContents(r.plaintexts, pts))
    case ReadCiphertext(id, _) => Readings([r.ciphertexts[id].content], [])
    case _ => NOTHING
  }

  function AllLoaded(r: map<Id, C.Seen>, uses: seq<Use>): (l: map<Id, C.Seen>)
    requires forall k :: 0 <= k < |uses| ==> uses[k].id in r
    ensures l.Keys == r.Keys && forall o :: o in r ==> l[o].content == r[o].content
    ensures forall k :: 0 <= k < |uses| ==> l[uses[k].id].loaded
    ensures forall o :: o in r && r[o].loaded ==> l[o].loaded
    decreases |uses|
  {
    if uses == [] then r
    else
      var l := AllLoaded(r[uses[0].id := r[uses[0].id].(loaded := true)], uses[1..]);
      assert forall k :: 1 <= k < |uses| ==> uses[k] == uses[1..][k - 1];
      l
  }

  /** The results of an operation, operand by operand; a later one for the same object wins. */
  function AllStored(r: map<Id, C.Seen>, uses: seq<Use>, results: seq<Result>): (t: map<Id, C.Seen>)
    requires |results| == |uses| && forall k :: 0 <= k < |uses| ==> uses[k].id in r
    ensures t.Keys == r.Keys
    decreases |uses|
  {
    if uses == [] then r
    else
      assert forall k :: 1 <= k < |uses| ==> uses[k] == uses[1..][k - 1];
      AllStored(r[uses[0].id := C.Seen(results[0].content, true, results[0].extended)], uses[1..], results[1..])
  }

  function Ids(uses: seq<Use>): set<Id> { set k | 0 <= k < |uses| :: uses[k].id }

  function ReferenceStep(r: Reference, e: Event): Reference
    requires Enabled(r, e)
  {
    match e
    case NewPlaintext(id, content, _) => r.(plaintexts := r.plaintexts[id := content])
    case RewritePlaintext(id, content) => r.(plaintexts := r.plaintexts[id := content])
    case DestroyPlaintext(id) => r.(plaintexts := r.plaintexts - {id})
    case LoadPlaintext(id, _) => r.(used := r.used + {id})
    case PinPlaintext(id, _) => r.(used := r.used + {id})
    case NewCiphertext(id, content) => r.(ciphertexts := r.ciphertexts[id := C.Seen(content, false, false)])
    case LoadCiphertext(id, _) => r.(ciphertexts := r.ciphertexts[id := r.ciphertexts[id].(loaded := true)])
    case PinCiphertext(id, _) => r.(ciphertexts := r.ciphertexts[id := r.ciphertexts[id].(loaded := true)])
    case CloneCiphertext(id, twin, _, _) => r.(ciphertexts := r.ciphertexts[twin := r.ciphertexts[id]])
    case UnloadCiphertext(id, _) => r.(ciphertexts := r.ciphertexts[id := C.Seen(r.ciphertexts[id].content, false, false)])
    case DestroyCiphertext(id) => r.(ciphertexts := r.ciphertexts - {id})
    case Operate(cts, pts, compute) =>
      var results := Results(compute, ReferenceReads(r, e), |cts|);
      r.(ciphertexts := AllStored(AllLoaded(r.ciphertexts, cts), cts, results), used := r.used + Ids(pts))
    case _ => r
  }

  // ---- Operations on the caches ----

  /** What the API shows of both kinds of objects is what the reference has. */
  ghost predicate Shows(w: World, r: Reference) {
    P.Encodings(w.plain) == r.plaintexts && C.View(w.cipher) == r.ciphertexts && P.Traced(w.plain, r.used)
  }

  predicate CiphersOf(c: C.State, uses: seq<Use>) {
    forall k :: 0 <= k < |uses| ==> uses[k].id in c.objects
  }

  predicate PlainsOf(p: P.State, uses: seq<Use>) {
    forall k :: 0 <= k < |uses| ==> uses[k].id in p.objects
  }

  function LoadAll(c: C.State, next: Handle, uses: seq<Use>): (r: (C.State, Handle))
    requires CiphersOf(c, uses)
    ensures r.0.objects.Keys == c.objects.Keys
    decreases |uses|
  {
    if uses == [] then (c, next)
    else LoadAll(C.Loaded(c, uses[0].id, uses[0].loadBytes, next), C.NextHandle(c, uses[0].id, next), uses[1..])
  }

  function FetchAll(c: C.State, uses: seq<Use>): (r: C.State)
    requires CiphersOf(c, uses)
    ensures r.objects == c.objects
    decreases |uses|
  {
    if uses == [] then c else FetchAll(C.Fetched(c, c.objects[uses[0].id].gpu, uses[0].fetchBytes), uses[1..])
  }

  /** Each plaintext is loaded and then fetched. */
  function UseAll(p: P.State, next: Handle, uses: seq<Use>): (r: (P.State, Handle))
    requires PlainsOf(p, uses)
    ensures r.0.objects.Keys == p.objects.Keys
    decreases |uses|
  {
    if uses == [] then (p, next)
    else
      var t := P.Loaded(p, uses[0].id, uses[0].loadBytes, next);
      UseAll(P.Touched(t, t.objects[uses[0].id].gpu), P.NextHandle(p, uses[0].id, next), uses[1..])
  }

  /** What is read through the fetched pointers when the operation computes: whatever is in device
      memory then, which for a parked ciphertext is no limbs at all. */
  function ReadCiphers(c: C.State, uses: seq<Use>): seq<Content>
    requires CiphersOf(c, uses)
  {
    seq(|uses|, k requires 0 <= k < |uses| => ReadPointer(c, uses[k].id))
  }

  function ReadPointer(c: C.State, id: Id): Content
    requires id in c.objects
  {
    C.DeviceOf(c, c.objects[id].gpu).now
  }

  /** `Decrypt` and the getters. */
  function FetchedForReading(c: C.State, id: Id, bytes: nat): C.State
    requires id in c.objects
  {
    if c.objects[id].loaded then C.Fetched(c, c.objects[id].gpu, bytes) else c
  }

  function StoreAll(c: C.State, uses: seq<Use>, results: seq<Result>): (t: C.State)
    requires CiphersOf(c, uses) && |results| == |uses|
    ensures t.objects == c.objects
    decreases |uses|
  {
    if uses == [] then c
    else StoreAll(C.Stored(c, uses[0].id, results[0].content, results[0].extended), uses[1..], results[1..])
  }

  function ReadPlains(p: P.State, uses: seq<Use>): seq<P.Content>
    requires PlainsOf(p, uses)
  {
    seq(|uses|, k requires 0 <= k < |uses| => P.DeviceOf(p, p.objects[uses[k].id].gpu))
  }

  /** The caches while an operation computes, everything loaded and fetched. */
  function Working(w: World, cts: seq<Use>, pts: seq<Use>): (v: World)
    requires CiphersOf(w.cipher, cts) && PlainsOf(w.plain, pts)
    ensures CiphersOf(v.cipher, cts) && PlainsOf(v.plain, pts)
  {
    var (loaded, n) := LoadAll(w.cipher, w.next, cts);
    var (used, m) := UseAll(P.HoldOpened(w.plain), n, pts);
    World(used, FetchAll(loaded, cts), m)
  }

  function Reads(w: World, e: Event): Readings
    requires Applicable(w, e)
  {
    match e
    case Operate(cts, pts, _) =>
      var v := Working(w, cts, pts);
      Readings(ReadCiphers(v.cipher, cts), ReadPlains(v.plain, pts))
    case ReadCiphertext(id, bytes) =>
      var c := FetchedForReading(w.cipher, id, bytes);
      Readings([if c.objects[id].loaded then ReadPointer(c, id) else c.objects[id].cpu], [])
    case _ => NOTHING
  }

  predicate OnPlaintexts(e: Event) {
    e.NewPlaintext? || e.RewritePlaintext? || e.LoadPlaintext? || e.DestroyPlaintext? || e.PinPlaintext? || e.UnpinPlaintext? || e.OffloadPlaintexts? || e.SetPlaintextCache?
  }

  /** The objects an event names exist, or do not exist yet. */
  predicate Applicable(w: World, e: Event) {
    match e
    case NewPlaintext(id, _, _) => id !in w.plain.objects
    case NewCiphertext(id, _) => id !in w.cipher.objects
    case CloneCiphertext(id, twin, _, _) => id in w.cipher.objects && twin !in w.cipher.objects
    case Operate(cts, pts, _) => CiphersOf(w.cipher, cts) && PlainsOf(w.plain, pts)
    case RewritePlaintext(id, _) => id in w.plain.objects && !w.plain.objects[id].loaded
    case LoadPlaintext(id, _) => id in w.plain.objects
    case DestroyPlaintext(id) => id in w.plain.objects
    case PinPlaintext(id, _) => id in w.plain.objects
    case UnpinPlaintext(id) => id in w.plain.objects
    case LoadCiphertext(id, _) => id in w.cipher.objects
    case ReadCiphertext(id, _) => id in w.cipher.objects
    case UnloadCiphertext(id, _) => id in w.cipher.objects
    case DestroyCiphertext(id) => id in w.cipher.objects
    case OffloadCiphertext(id) => id in w.cipher.objects
    case ReloadCiphertext(id, _) => id in w.cipher.objects
    case PinCiphertext(id, _) => id in w.cipher.objects
    case UnpinCiphertext(id) => id in w.cipher.objects
    case _ => true
  }

  function PlainStep(p: P.State, next: Handle, e: Event): (P.State, Handle)
    requires Applicable(World(p, C.EMPTY, next), e) && OnPlaintexts(e)
  {
    match e
    case NewPlaintext(id, content, attached) => (P.Created(p, id, content, attached), next)
    case RewritePlaintext(id, content) => (P.EncodingSet(p, id, content), next)
    case LoadPlaintext(id, bytes) => (P.Loaded(p, id, bytes, next), P.NextHandle(p, id, next))
    case DestroyPlaintext(id) => (P.Destroyed(p, id), next)
    case PinPlaintext(id, bytes) =>
      var t := P.Loaded(P.HoldOpened(p), id, bytes, next);
      (P.HoldClosed(P.Pinned(t, id)), P.NextHandle(p, id, next))
    case UnpinPlaintext(id) => (P.HoldClosed(P.Unpinned(P.HoldOpened(p), id)), next)
    case OffloadPlaintexts => (P.AllOffloaded(p), next)
    case SetPlaintextCache(limit) => (P.BudgetSet(p, limit), next)
  }

  function CipherStep(c: C.State, next: Handle, e: Event): (C.State, Handle)
    requires Applicable(World(P.EMPTY, c, next), e) && !OnPlaintexts(e) && !e.Operate?
  {
    match e
    case NewCiphertext(id, content) => (C.Created(c, id, content), next)
    case LoadCiphertext(id, bytes) => (C.Loaded(c, id, bytes, next), C.NextHandle(c, id, next))
    case ReadCiphertext(id, bytes) => (FetchedForReading(c, id, bytes), next)
    case CloneCiphertext(id, twin, fetchBytes, copyBytes) =>
      (C.Cloned(c, id, twin, fetchBytes, copyBytes, next), if c.objects[id].loaded then next + 1 else next)
    case UnloadCiphertext(id, bytes) => (C.Unloaded(c, id, bytes), next)
    case DestroyCiphertext(id) => (C.Destroyed(c, id), next)
    case OffloadCiphertext(id) => (C.Offloaded(c, c.objects[id].gpu), next)
    case ReloadCiphertext(id, bytes) => (C.Reloaded(c, c.objects[id].gpu, bytes), next)
    case PinCiphertext(id, bytes) => (C.Pinned(C.Loaded(c, id, bytes, next), id, bytes), C.NextHandle(c, id, next))
    case UnpinCiphertext(id) => (C.Unpinned(c, id), next)
    case OffloadCiphertexts => (C.AllOffloaded(c), next)
    case SetCiphertextCache(limit) => (C.BudgetSet(c, limit), next)
  }

  function Step(w: World, e: Event): World
    requires Applicable(w, e)
  {
    if e.Operate? then
      var v := Working(w, e.cts, e.pts);
      var results := Results(e.compute, Reads(w, e), |e.cts|);
      World(P.HoldClosed(v.plain), StoreAll(v.cipher, e.cts, results), v.next)
    else if OnPlaintexts(e) then
      var (p, next) := PlainStep(w.plain, w.next, e);
      World(p, w.cipher, next)
    else
      var (c, next) := CipherStep(w.cipher, w.next, e);
      World(w.plain, c, next)
  }

  // ---- One event ----

  lemma LoadOne(c: C.State, next: Handle, id: Id, bytes: nat)
    requires C.Good(c, next) && id in c.objects
    ensures var t := C.Loaded(c, id, bytes, next);
      && C.Good(t, C.NextHandle(c, id, next)) && next <= C.NextHandle(c, id, next)
      && id in C.View(c) && C.View(t) == C.View(c)[id := C.View(c)[id].(loaded := true)]
  {
    C.GoodLoaded(c, next, id, bytes);
    assert C.View(c)[id] == C.SeenAs(c, id);
    hide C.Loaded, C.Bookkept, C.Parked;
  }

  lemma ViewKeys(c: C.State)
    ensures C.View(c).Keys == c.objects.Keys
  {
  }

  lemma {:induction false} GoodLoadAll(c: C.State, next: Handle, uses: seq<Use>)
    requires C.Good(c, next) && CiphersOf(c, uses)
    ensures C.View(c).Keys == c.objects.Keys
    ensures var r := LoadAll(c, next, uses);
      C.Good(r.0, r.1) && r.1 >= next && C.View(r.0) == AllLoaded(C.View(c), uses)
    decreases |uses|
  {
    hide C.Loaded, C.Good, C.View, C.NextHandle;
    ViewKeys(c);
    if uses != [] {
      var u := uses[0];
      LoadOne(c, next, u.id, u.loadBytes);
      GoodLoadAll(C.Loaded(c, u.id, u.loadBytes, next), C.NextHandle(c, u.id, next), uses[1..]);
    }
  }

  ghost predicate IsResident(c: C.State, id: Id) {
    id in c.objects && c.objects[id].loaded && c.objects[id].gpu in c.device && !c.device[c.objects[id].gpu].Offloaded()
  }

  lemma FetchOne(c: C.State, next: Handle, id: Id, bytes: nat)
    requires C.Good(c, next) && id in c.objects && c.objects[id].loaded
    ensures var t := C.Fetched(c, c.objects[id].gpu, bytes);
      && C.Good(t, next) && C.View(t) == C.View(c) && t.objects == c.objects && IsResident(t, id)
      && forall o :: IsResident(c, o) ==> IsResident(t, o)
  {
    var h := c.objects[id].gpu;
    C.ValidFetched(c, next, h, bytes);
    C.FetchedStays(c, h, bytes);
    assert h in c.device by { hide C.Bookkept, C.Parked; }
    hide C.Fetched, C.Valid, C.SameDevices, C.View;
  }

  /** Fetching the operands in turn: nothing fetched is parked by a later fetch, so all of them are
      on the device together when the operation computes. */
  lemma {:induction false} GoodFetchAll(c: C.State, next: Handle, uses: seq<Use>)
    requires C.Good(c, next) && CiphersOf(c, uses) && forall k :: 0 <= k < |uses| ==> c.objects[uses[k].id].loaded
    ensures var r := FetchAll(c, uses);
      && C.Good(r, next) && C.View(r) == C.View(c)
      && (forall k :: 0 <= k < |uses| ==> IsResident(r, uses[k].id))
      && forall o :: IsResident(c, o) ==> IsResident(r, o)
    decreases |uses|
  {
    hide C.Fetched, C.Good, C.View, IsResident;
    if uses != [] {
      var u := uses[0];
      FetchOne(c, next, u.id, u.fetchBytes);
      GoodFetchAll(C.Fetched(c, c.objects[u.id].gpu, u.fetchBytes), next, uses[1..]);
      assert forall k :: 1 <= k < |uses| ==> uses[k] == uses[1..][k - 1];
    }
  }

  lemma UseOne(p: P.State, next: Handle, id: Id, bytes: nat)
    requires P.Good(p, next) && p.hold > 0 && id in p.objects
    ensures var t := P.Loaded(p, id, bytes, next);
      var u := P.Touched(t, t.objects[id].gpu);
      && P.Good(u, P.NextHandle(p, id, next)) && next <= P.NextHandle(p, id, next)
      && P.Encodings(u) == P.Encodings(p) && P.Grows(p, u) && P.Uploaded(u, id)
  {
    hide *;
    var t := P.Loaded(p, id, bytes, next);
    var u := P.Touched(t, t.objects[id].gpu);
    P.LoadedUnderHold(p, next, id, bytes);
    P.GoodFetched(t, P.NextHandle(p, id, next), t.objects[id].gpu);
    P.SameTwice(p, t, u);
    P.GrowsTouched(t, t.objects[id].gpu);
    P.GrowsTwice(p, t, u);
  }

  /** Under the hold every plaintext that was registered when it was opened, or since, is still there
      at the end; so all those the operation uses are on the device together when it computes. */
  lemma {:induction false} GoodUseAll(p: P.State, next: Handle, uses: seq<Use>)
    requires P.Good(p, next) && p.hold > 0 && PlainsOf(p, uses)
    ensures var r := UseAll(p, next, uses);
      && P.Good(r.0, r.1) && r.1 >= next && P.Encodings(r.0) == P.Encodings(p) && P.Grows(p, r.0)
      && forall k :: 0 <= k < |uses| ==> P.Uploaded(r.0, uses[k].id)
    decreases |uses|
  {
    hide P.Loaded, P.Good, P.NextHandle, P.Touched, P.Encodings, P.Uploaded;
    if uses != [] {
      var u := uses[0];
      UseOne(p, next, u.id, u.loadBytes);
      var t := P.Loaded(p, u.id, u.loadBytes, next);
      var q := P.Touched(t, t.objects[u.id].gpu);
      var after := P.NextHandle(p, u.id, next);
      P.SameKeys(q, p);
      GoodUseAll(q, after, uses[1..]);
      P.GrowsTwice(p, q, UseAll(q, after, uses[1..]).0);
      hide P.Grows;
      assert forall k :: 1 <= k < |uses| ==> uses[k] == uses[1..][k - 1];
    }
  }

  lemma EnabledIsApplicable(w: World, r: Reference, e: Event)
    requires Good(w) && Shows(w, r) && Enabled(r, e)
    ensures Applicable(w, e)
    ensures e.NewPlaintext? ==> P.Unclaimed(w.plain, e.id)
  {
    ShowsKeys(w, r);
    hide P.Good, C.Good, Shows, P.Traced;
    if e.NewPlaintext? || e.RewritePlaintext? {
      P.UnusedIsUnloaded(w.plain, w.next, r.used, e.id);
    }
  }

  lemma ShowsKeys(w: World, r: Reference)
    requires Shows(w, r)
    ensures r.plaintexts.Keys == w.plain.objects.Keys && r.ciphertexts.Keys == w.cipher.objects.Keys && P.Traced(w.plain, r.used)
  {
    ViewKeys(w.cipher);
    EncodingKeys(w.plain);
    hide C.View, P.Encodings, P.Traced;
  }

  lemma EncodingKeys(p: P.State)
    ensures P.Encodings(p).Keys == p.objects.Keys
  {
  }

  lemma PlainStepMatches(p: P.State, next: Handle, e: Event)
    requires P.Good(p, next) && Applicable(World(p, C.EMPTY, next), e) && OnPlaintexts(e)
    requires e.NewPlaintext? ==> P.Unclaimed(p, e.id)
    ensures var (q, n) := PlainStep(p, next, e);
      && P.Good(q, n) && n >= next
      && P.Encodings(q) == match e
          case NewPlaintext(id, content, _) => P.Encodings(p)[id := content]
          case RewritePlaintext(id, content) => P.Encodings(p)[id := content]
          case DestroyPlaintext(id) => P.Encodings(p) - {id}
          case _ => P.Encodings(p)
  {
    match e
    case NewPlaintext(id, content, attached) => P.GoodCreated(p, next, id, content, attached);
    case RewritePlaintext(id, content) => P.GoodDecrypted(p, next, id, content);
    case LoadPlaintext(id, bytes) =>
      P.ValidLoaded(p, next, id, bytes);
      hide P.Loaded, P.Valid, P.Faithful, P.Encodings;
    case DestroyPlaintext(id) => P.GoodDestroyed(p, next, id);
    case OffloadPlaintexts => P.GoodAllOffloaded(p, next);
    case SetPlaintextCache(limit) => P.GoodBudgetSet(p, next, limit);
    case PinPlaintext(id, bytes) =>
      hide *;
      var h := P.HoldOpened(p);
      PinSteps(p, next, id, bytes);
    case UnpinPlaintext(id) =>
      UnpinSteps(p, next, id);
  }

  /** Owners of what is registered are used plaintexts, whatever happened. */
  lemma PlainStepTraces(p: P.State, next: Handle, e: Event, used: set<Id>)
    requires Applicable(World(p, C.EMPTY, next), e) && OnPlaintexts(e) && P.Traced(p, used)
    ensures P.Traced(PlainStep(p, next, e).0, if e.LoadPlaintext? || e.PinPlaintext? then used + {e.id} else used)
  {
    if e.LoadPlaintext? {
      P.TracedLoaded(p, used, e.id, e.bytes, next);
    } else if e.PinPlaintext? {
      P.TracedLoaded(P.HoldOpened(p), used, e.id, e.bytes, next);
      var t := P.Pinned(P.Loaded(P.HoldOpened(p), e.id, e.bytes, next), e.id);
      P.TracedSmaller(t, P.HoldClosed(t), used + {e.id});
    } else {
      P.TracedSmaller(p, PlainStep(p, next, e).0, used);
    }
  }

  lemma PinSteps(p: P.State, next: Handle, id: Id, bytes: nat)
    requires P.Good(p, next) && id in p.objects
    ensures var q := P.HoldClosed(P.Pinned(P.Loaded(P.HoldOpened(p), id, bytes, next), id));
      P.Good(q, P.NextHandle(p, id, next)) && P.NextHandle(p, id, next) >= next && P.Encodings(q) == P.Encodings(p)
  {
    hide P.Good, P.Loaded, P.Pinned, P.HoldClosed, P.Encodings;
    var h := P.HoldOpened(p);
    P.GoodHoldOpened(p, next);
    P.LoadedUnderHold(h, next, id, bytes);
    var t, n := P.Loaded(h, id, bytes, next), P.NextHandle(p, id, next);
    P.GoodPinned(t, n, id);
    P.GoodHoldClosed(P.Pinned(t, id), n);
  }

  lemma UnpinSteps(p: P.State, next: Handle, id: Id)
    requires P.Good(p, next) && id in p.objects
    ensures var q := P.HoldClosed(P.Unpinned(P.HoldOpened(p), id));
      P.Good(q, next) && P.Encodings(q) == P.Encodings(p)
  {
    hide P.Good, P.Unpinned, P.HoldClosed, P.Encodings;
    var h := P.HoldOpened(p);
    P.GoodHoldOpened(p, next);
    P.GoodUnpinned(h, next, id);
    P.GoodHoldClosed(P.Unpinned(h, id), next);
  }

  lemma CipherStepMatches(c: C.State, next: Handle, e: Event)
    requires C.Good(c, next) && Applicable(World(P.EMPTY, c, next), e) && !OnPlaintexts(e) && !e.Operate?
    requires e.OffloadCiphertext? ==> e.id in C.View(c) && !C.View(c)[e.id].extended
    ensures C.View(c).Keys == c.objects.Keys
    ensures var (d, n) := CipherStep(c, next, e);
      && C.Good(d, n) && n >= next
      && C.View(d) == match e
          case NewCiphertext(id, content) => C.View(c)[id := C.Seen(content, false, false)]
          case LoadCiphertext(id, _) => C.View(c)[id := C.View(c)[id].(loaded := true)]
          case PinCiphertext(id, _) => C.View(c)[id := C.View(c)[id].(loaded := true)]
          case CloneCiphertext(id, twin, _, _) => C.View(c)[twin := C.View(c)[id]]
          case UnloadCiphertext(id, _) => C.View(c)[id := C.Seen(C.View(c)[id].content, false, false)]
          case DestroyCiphertext(id) => C.View(c) - {id}
          case _ => C.View(c)
  {
    ViewKeys(c);
    match e
    case NewCiphertext(id, content) => C.GoodCreated(c, next, id, content);
    case LoadCiphertext(id, bytes) => LoadOne(c, next, id, bytes);
    case ReadCiphertext(id, bytes) =>
      if c.objects[id].loaded {
        C.ValidFetched(c, next, c.objects[id].gpu, bytes);
      }
    case CloneCiphertext(id, twin, fetchBytes, copyBytes) => C.GoodCloned(c, next, id, twin, fetchBytes, copyBytes);
    case UnloadCiphertext(id, bytes) => C.GoodUnloaded(c, next, id, bytes);
    case DestroyCiphertext(id) => C.GoodDestroyed(c, next, id);
    case OffloadCiphertext(id) => OffloadSteps(c, next, id);
    case ReloadCiphertext(id, bytes) => C.ValidReloaded(c, next, c.objects[id].gpu, bytes);
    case PinCiphertext(id, bytes) =>
      LoadOne(c, next, id, bytes);
      C.GoodPinned(C.Loaded(c, id, bytes, next), C.NextHandle(c, id, next), id, bytes);
    case UnpinCiphertext(id) => C.GoodUnpinned(c, next, id);
    case OffloadCiphertexts => C.GoodAllOffloaded(c, next);
    case SetCiphertextCache(limit) => C.GoodBudgetSet(c, next, limit);
  }

  lemma OffloadSteps(c: C.State, next: Handle, id: Id)
    requires C.Good(c, next) && id in C.View(c) && !C.View(c)[id].extended
    ensures C.Good(C.Offloaded(c, c.objects[id].gpu), next) && C.View(C.Offloaded(c, c.objects[id].gpu)) == C.View(c)
  {
    C.ValidOffloaded(c, next, c.objects[id].gpu);
  }

  // ---- Nested operations ----

  /** What happens to plaintexts inside an operation: its own loads, and operations it calls. */
  datatype InOperation = EnterOperation | LeaveOperation | LoadAndFetch(id: Id, bytes: nat)

  function Inside(p: P.State, next: Handle, steps: seq<InOperation>): (P.State, Handle)
    requires forall k :: 0 <= k < |steps| && steps[k].LoadAndFetch? ==> steps[k].id in p.objects
    decreases |steps|
  {
    if steps == [] then (p, next)
    else
      match steps[0]
      case EnterOperation => Inside(P.HoldOpened(p), next, steps[1..])
      case LeaveOperation =>
        var t := P.HoldClosed(p);
        P.ClosedObjects(p);
        Inside(t, next, steps[1..])
      case LoadAndFetch(id, bytes) =>
        var t := P.Loaded(p, id, bytes, next);
        Inside(P.Touched(t, t.objects[id].gpu), P.NextHandle(p, id, next), steps[1..])
  }

  /** The outermost hold stays open throughout. */
  predicate StaysOpen(depth: nat, steps: seq<InOperation>)
    decreases |steps|
  {
    steps == [] ||
      match steps[0]
      case EnterOperation => StaysOpen(depth + 1, steps[1..])
      case LeaveOperation => depth > 1 && StaysOpen(depth - 1, steps[1..])
      case LoadAndFetch(_, _) => StaysOpen(depth, steps[1..])
  }

  /** Main result on holds: until the outermost one closes, no plaintext loaded or fetched since it was
      opened leaves the registry, however the operations nest. */
  lemma {:induction false} NothingLeavesUnderAHold(p: P.State, next: Handle, steps: seq<InOperation>)
    requires P.Good(p, next) && p.hold > 0 && StaysOpen(p.hold, steps)
    requires forall k :: 0 <= k < |steps| && steps[k].LoadAndFetch? ==> steps[k].id in p.objects
    ensures P.Kept(p, Inside(p, next, steps).0)
    decreases |steps|
  {
    hide P.Good, P.Loaded, P.Touched, P.HoldClosed, P.Kept, P.Encodings, P.NextHandle, P.Uploaded;
    if steps == [] {
      P.KeptItself(p);
    } else {
      P.InnerHoldKeeps(p);
      match steps[0]
      case EnterOperation =>
        P.GoodHoldOpened(p, next);
        var q := P.HoldOpened(p);
        NothingLeavesUnderAHold(q, next, steps[1..]);
        P.KeptTwice(p, q, Inside(q, next, steps[1..]).0);
      case LeaveOperation =>
        P.GoodHoldClosed(p, next);
        P.ClosedObjects(p);
        var q := P.HoldClosed(p);
        NothingLeavesUnderAHold(q, next, steps[1..]);
        P.KeptTwice(p, q, Inside(q, next, steps[1..]).0);
      case LoadAndFetch(id, bytes) =>
        UseOne(p, next, id, bytes);
        var t := P.Loaded(p, id, bytes, next);
        var q, after := P.Touched(t, t.objects[id].gpu), P.NextHandle(p, id, next);
        P.SameKeys(q, p);
        NothingLeavesUnderAHold(q, after, steps[1..]);
        P.KeptTwice(p, q, Inside(q, after, steps[1..]).0);
    }
  }

  /** Reading through the pointer gives the contents exactly while the ciphertext is resident: a parked
      one has no limbs to read. */
  lemma ReadsNeedResidency(c: C.State, next: Handle, id: Id)
    requires C.Good(c, next) && id in c.objects && c.objects[id].loaded && C.SeenAs(c, id).content.towers0 != []
    ensures ReadPointer(c, id) == C.SeenAs(c, id).content <==> IsResident(c, id)
  {
    var h := c.objects[id].gpu;
    assert h in c.device && c.device[h].Valid() by { hide C.Bookkept; }
    ReadNeedsResidency(c.device[h]);
    hide C.Good, Device.Valid, Device.Contents, Device.Offloaded;
  }

  lemma ReadResident(c: C.State, id: Id)
    requires IsResident(c, id)
    ensures ReadPointer(c, id) == C.SeenAs(c, id).content
  {
  }

  lemma ReadCiphersMatches(c: C.State, uses: seq<Use>)
    requires CiphersOf(c, uses) && forall k :: 0 <= k < |uses| ==> IsResident(c, uses[k].id)
    ensures C.View(c).Keys == c.objects.Keys && ReadCiphers(c, uses) == CipherContents(C.View(c), uses)
  {
    hide IsResident, C.SeenAs, ReadPointer;
    forall k | 0 <= k < |uses| ensures ReadCiphers(c, uses)[k] == C.View(c)[uses[k].id].content {
      ReadResident(c, uses[k].id);
    }
  }

  lemma ReadPlainsMatches(p: P.State, uses: seq<Use>)
    requires PlainsOf(p, uses) && forall k :: 0 <= k < |uses| ==> P.Uploaded(p, uses[k].id)
    ensures P.Encodings(p).Keys == p.objects.Keys && ReadPlains(p, uses) == PlainContents(P.Encodings(p), uses)
  {
    forall k | 0 <= k < |uses| ensures ReadPlains(p, uses)[k] == P.Encodings(p)[uses[k].id] {
      assert P.Uploaded(p, uses[k].id);
    }
  }

  lemma SameContents(r: map<Id, C.Seen>, uses: seq<Use>)
    requires forall k :: 0 <= k < |uses| ==> uses[k].id in r
    ensures CipherContents(AllLoaded(r, uses), uses) == CipherContents(r, uses)
  {
    hide AllLoaded;
  }

  lemma ViewLoaded(c: C.State, id: Id)
    requires id in c.objects
    ensures id in C.View(c) && C.View(c)[id].loaded == c.objects[id].loaded
  {
  }

  /** When an operation computes, everything it fetched is on the device, and it reads what the
      reference says, whatever was evicted or parked on the way. */
  lemma WorkingMatches(w: World, cts: seq<Use>, pts: seq<Use>)
    requires Good(w) && CiphersOf(w.cipher, cts) && PlainsOf(w.plain, pts)
    ensures C.View(w.cipher).Keys == w.cipher.objects.Keys && P.Encodings(w.plain).Keys == w.plain.objects.Keys
    ensures var v := Working(w, cts, pts);
      && Good(v) && (forall k :: 0 <= k < |cts| ==> IsResident(v.cipher, cts[k].id)) && (forall k :: 0 <= k < |pts| ==> P.Uploaded(v.plain, pts[k].id))
      && C.View(v.cipher) == AllLoaded(C.View(w.cipher), cts) && P.Encodings(v.plain) == P.Encodings(w.plain)
      && ReadCiphers(v.cipher, cts) == CipherContents(C.View(w.cipher), cts)
      && ReadPlains(v.plain, pts) == PlainContents(P.Encodings(w.plain), pts)
  {
    hide P.Good, C.Good, C.View, P.Encodings, LoadAll, FetchAll, UseAll, IsResident, P.Uploaded, P.Grows, AllLoaded;
    var r := LoadAll(w.cipher, w.next, cts);
    GoodLoadAll(w.cipher, w.next, cts);
    P.GoodHoldOpened(w.plain, w.next);
    P.GoodLater(P.HoldOpened(w.plain), w.next, r.1);
    GoodUseAll(P.HoldOpened(w.plain), r.1, pts);
    var u := UseAll(P.HoldOpened(w.plain), r.1, pts);
    C.GoodLater(r.0, r.1, u.1);
    forall k | 0 <= k < |cts| ensures r.0.objects[cts[k].id].loaded {
      ViewLoaded(r.0, cts[k].id);
    }
    GoodFetchAll(r.0, u.1, cts);
    var v := Working(w, cts, pts);
    assert v == World(u.0, FetchAll(r.0, cts), u.1);
    ReadCiphersMatches(v.cipher, cts);
    ReadPlainsMatches(v.plain, pts);
    SameContents(C.View(w.cipher), cts);
    ViewKeys(w.cipher);
  }

  /** Main result for one event: the caches take part in the run, and nobody can tell. */
  lemma StepMatches(w: World, r: Reference, e: Event)
    requires Good(w) && Shows(w, r) && Enabled(r, e)
    ensures Applicable(w, e)
    ensures Good(Step(w, e)) && Shows(Step(w, e), ReferenceStep(r, e)) && Reads(w, e) == ReferenceReads(r, e)
  {
    EnabledIsApplicable(w, r, e);
    if e.Operate? {
      OperateMatches(w, r, e);
    } else if OnPlaintexts(e) {
      PlainEventMatches(w, r, e);
    } else {
      CipherEventMatches(w, r, e);
    }
  }

  lemma PlainEventMatches(w: World, r: Reference, e: Event)
    requires Good(w) && OnPlaintexts(e) && Shows(w, r) && Enabled(r, e) && Applicable(w, e)
    requires e.NewPlaintext? ==> P.Unclaimed(w.plain, e.id)
    ensures Good(Step(w, e)) && Shows(Step(w, e), ReferenceStep(r, e)) && Reads(w, e) == ReferenceReads(r, e)
  {
    hide P.Good, C.Good, C.View, P.Encodings, PlainStep, P.Traced;
    PlainStepMatches(w.plain, w.next, e);
    PlainStepTraces(w.plain, w.next, e, r.used);
    var (p, n) := PlainStep(w.plain, w.next, e);
    C.GoodLater(w.cipher, w.next, n);
  }

  lemma CipherEventMatches(w: World, r: Reference, e: Event)
    requires Good(w) && !OnPlaintexts(e) && !e.Operate? && Shows(w, r) && Enabled(r, e) && Applicable(w, e)
    ensures Good(Step(w, e)) && Shows(Step(w, e), ReferenceStep(r, e)) && Reads(w, e) == ReferenceReads(r, e)
  {
    hide P.Good, C.Good, C.View, P.Encodings, CipherStep, P.Traced, FetchedForReading, ReadPointer;
    ViewKeys(w.cipher);
    CipherStepMatches(w.cipher, w.next, e);
    if e.ReadCiphertext? {
      ReadingMatches(w.cipher, w.next, e.id, e.fetchBytes);
    }
    var (c, n) := CipherStep(w.cipher, w.next, e);
    P.GoodLater(w.plain, w.next, n);
  }

  /** A single read sees the contents, parked or not: the fetch brings them back first. */
  lemma ReadingMatches(c: C.State, next: Handle, id: Id, bytes: nat)
    requires C.Good(c, next) && id in c.objects
    ensures C.View(c).Keys == c.objects.Keys
    ensures var d := FetchedForReading(c, id, bytes);
      && d.objects == c.objects
      && (if d.objects[id].loaded then ReadPointer(d, id) else d.objects[id].cpu) == C.View(c)[id].content
  {
    if c.objects[id].loaded {
      C.LoadedDevice(c, next, id);
      C.GoodFetched(c, next, c.objects[id].gpu, bytes);
    }
    hide C.Good, C.Fetched, Device.Contents, Device.Valid;
  }

  lemma OperateMatches(w: World, r: Reference, e: Event)
    requires Good(w) && e.Operate? && Shows(w, r) && Enabled(r, e) && Applicable(w, e)
    ensures Good(Step(w, e)) && Shows(Step(w, e), ReferenceStep(r, e)) && Reads(w, e) == ReferenceReads(r, e)
  {
    hide P.HoldClosed, P.Traced, Ids, Working, ReadCiphers, ReadPlains, AllLoaded, CipherContents, PlainContents, P.Good, C.Good, C.View, P.Encodings, IsResident, StoreAll, AllStored, Results;
    var v := Working(w, e.cts, e.pts);
    WorkingMatches(w, e.cts, e.pts);
    WorkingTraces(w, e.cts, e.pts, r.used);
    ClosedTraced(v.plain, r.used + Ids(e.pts));
    GoodStoreAll(v.cipher, v.next, e.cts, Results(e.compute, Reads(w, e), |e.cts|));
    P.GoodHoldClosed(v.plain, v.next);
  }

  lemma ClosedTraced(p: P.State, used: set<Id>)
    requires P.Traced(p, used)
    ensures P.Traced(P.HoldClosed(p), used)
  {
    P.TracedSmaller(p, P.HoldClosed(p), used);
  }

  lemma StoreOne(c: C.State, next: Handle, id: Id, content: Content, extended: bool)
    requires C.Good(c, next) && IsResident(c, id)
    ensures var t := C.Stored(c, id, content, extended);
      && C.Good(t, next) && C.View(t) == C.View(c)[id := C.Seen(content, true, extended)] && t.objects == c.objects
      && forall o :: IsResident(c, o) ==> IsResident(t, o)
  {
    ResidentFacts(c, id);
    C.GoodStored(c, next, id, content, extended);
    hide C.Good, C.View;
  }

  /** All the results reach their ciphertexts, because all of these are still resident. */
  lemma {:induction false} GoodStoreAll(c: C.State, next: Handle, uses: seq<Use>, results: seq<Result>)
    requires C.Good(c, next) && |results| == |uses| && CiphersOf(c, uses)
    requires forall k :: 0 <= k < |uses| ==> IsResident(c, uses[k].id)
    ensures C.View(c).Keys == c.objects.Keys
    ensures C.Good(StoreAll(c, uses, results), next)
    ensures C.View(StoreAll(c, uses, results)) == AllStored(C.View(c), uses, results)
    decreases |uses|
  {
    ViewKeys(c);
    hide C.Good, C.View, C.Stored, IsResident;
    if uses != [] {
      StoreOne(c, next, uses[0].id, results[0].content, results[0].extended);
      assert forall k :: 1 <= k < |uses| ==> uses[k] == uses[1..][k - 1];
      GoodStoreAll(C.Stored(c, uses[0].id, results[0].content, results[0].extended), next, uses[1..], results[1..]);
    }
  }

  lemma {:induction false} UseAllTraces(p: P.State, next: Handle, uses: seq<Use>, used: set<Id>)
    requires PlainsOf(p, uses) && P.Traced(p, used)
    ensures P.Traced(UseAll(p, next, uses).0, used + Ids(uses))
    decreases |uses|
  {
    if uses == [] {
      assert used + Ids(uses) == used;
    } else {
      var u := uses[0];
      var t := P.Loaded(p, u.id, u.loadBytes, next);
      P.TracedLoaded(p, used, u.id, u.loadBytes, next);
      var q := P.Touched(t, t.objects[u.id].gpu);
      P.TracedSmaller(t, q, used + {u.id});
      UseAllTraces(q, P.NextHandle(p, u.id, next), uses[1..], used + {u.id});
      IdsStep(uses);
      assert used + {u.id} + Ids(uses[1..]) == used + Ids(uses);
    }
  }

  lemma IdsStep(uses: seq<Use>)
    requires uses != []
    ensures Ids(uses) == {uses[0].id} + Ids(uses[1..])
  {
    forall id | id in Ids(uses) ensures id in {uses[0].id} + Ids(uses[1..]) {
      var k :| 0 <= k < |uses| && uses[k].id == id;
      if k > 0 {
        assert uses[1..][k - 1].id == id;
      }
    }
    forall id | id in Ids(uses[1..]) ensures id in Ids(uses) {
      var k :| 0 <= k < |uses[1..]| && uses[1..][k].id == id;
      assert uses[k + 1].id == id;
    }
  }

  lemma WorkingTraces(w: World, cts: seq<Use>, pts: seq<Use>, used: set<Id>)
    requires CiphersOf(w.cipher, cts) && PlainsOf(w.plain, pts) && P.Traced(w.plain, used)
    ensures P.Traced(Working(w, cts, pts).plain, used + Ids(pts))
  {
    UseAllTraces(P.HoldOpened(w.plain), LoadAll(w.cipher, w.next, cts).1, pts, used);
  }

  lemma ResidentFacts(c: C.State, id: Id)
    requires IsResident(c, id)
    ensures id in c.objects && c.objects[id].loaded && c.objects[id].gpu in c.device && !c.device[c.objects[id].gpu].Offloaded()
  {
  }

  // ---- Whole runs ----

  predicate EnabledRun(r: Reference, es: seq<Event>)
    decreases |es|
  {
    es == [] || (Enabled(r, es[0]) && EnabledRun(ReferenceStep(r, es[0]), es[1..]))
  }

  function ReferenceRun(r: Reference, es: seq<Event>): seq<Readings>
    requires EnabledRun(r, es)
    decreases |es|
  {
    if es == [] then [] else [ReferenceReads(r, es[0])] + ReferenceRun(ReferenceStep(r, es[0]), es[1..])
  }

  /** What the events of a run read through the caches. */
  function Run(w: World, es: seq<Event>): seq<Readings>
    decreases |es|
  {
    if es == [] || !Applicable(w, es[0]) then [] else [Reads(w, es[0])] + Run(Step(w, es[0]), es[1..])
  }

  /** Main result: any run of loads, operations, pins, budget changes and explicit offloads reads
      exactly what it would without any cache. */
  lemma {:induction false} CachesAreInvisible(w: World, r: Reference, es: seq<Event>)
    requires Good(w) && Shows(w, r) && EnabledRun(r, es)
    ensures Run(w, es) == ReferenceRun(r, es)
    decreases |es|
  {
    if es != [] {
      StepMatches(w, r, es[0]);
      hide Good, Step, Reads, Shows, ReferenceStep, ReferenceReads, Enabled, Applicable;
      CachesAreInvisible(Step(w, es[0]), ReferenceStep(r, es[0]), es[1..]);
    }
  }

  function After(w: World, es: seq<Event>): World
    decreases |es|
  {
    if es == [] || !Applicable(w, es[0]) then w else After(Step(w, es[0]), es[1..])
  }

  /** Every reachable state keeps both caches consistent: the recency lists are duplicate-free and list
      exactly the resident handles, the byte counts are the sums of the entries, pins are tracked, and
      a live plaintext is loaded exactly while its handle is registered. */
  lemma {:induction false} ReachableStatesAreGood(w: World, r: Reference, es: seq<Event>)
    requires Good(w) && Shows(w, r) && EnabledRun(r, es)
    ensures Good(After(w, es))
    decreases |es|
  {
    if es != [] {
      StepMatches(w, r, es[0]);
      hide Good, Step, Shows, ReferenceStep, Enabled, Applicable;
      ReachableStatesAreGood(Step(w, es[0]), ReferenceStep(r, es[0]), es[1..]);
    }
  }

  /** So two contexts with the same objects cannot be told apart by their budgets, their pins or what
      they happen to hold. */
  lemma BudgetsDoNotMatter(v: World, w: World, r: Reference, es: seq<Event>)
    requires Good(v) && Good(w) && Shows(v, r) && Shows(w, r) && EnabledRun(r, es)
    ensures Run(v, es) == Run(w, es)
  {
    CachesAreInvisible(v, r, es);
    CachesAreInvisible(w, r, es);
  }

  /** Loading its operands is not enough for an operation: loading the second may park the first, and
      reading that one without a fetch would find no limbs. */
  lemma LoadingMayPark(c: C.State, next: Handle, first: Id, second: Id, bytes: nat)
    requires C.Good(c, next) && first in c.objects && c.objects[first].loaded && C.SeenAs(c, first).content.towers0 != []
    requires second in c.objects && !c.objects[second].loaded
    requires var h := c.objects[first].gpu; c.lru == [h] && h !in c.pinned && h !in C.Extended(c)
    requires c.resident + bytes > c.budget && c.budget != SIZE_MAX
    ensures var t := C.Loaded(c, second, bytes, next);
      && first in t.objects && C.SeenAs(t, first) == C.SeenAs(c, first)
      && !IsResident(t, first) && ReadPointer(t, first) != C.SeenAs(c, first).content
  {
    var t := C.Loaded(c, second, bytes, next);
    C.GoodLoaded(c, next, second, bytes);
    assert C.View(t)[first] == C.View(c)[first];
    SecondParksFirst(c, next, c.objects[first].gpu, second, bytes);
    assert t.objects[first] == c.objects[first];
    hide C.Loaded, C.Good, C.View, C.SeenAs;
    ReadsNeedResidency(t, C.NextHandle(c, second, next), first);
  }

  lemma SecondParksFirst(c: C.State, next: Handle, h: Handle, id: Id, bytes: nat)
    requires C.Good(c, next) && id in c.objects && !c.objects[id].loaded
    requires c.lru == [h] && h !in c.pinned && h !in C.Extended(c) && c.resident + bytes > c.budget && c.budget != SIZE_MAX
    ensures var t := C.Loaded(c, id, bytes, next); h in t.device && t.device[h].Offloaded()
  {
    var o := c.objects[id];
    var r := C.RegisteredFor(c, id, o.cpu, next, o.cpu, false, bytes);
    assert h in c.cache && c.cache[h].mark && h in c.device && h < next by { assert h in c.lru; }
    assert h !in C.Exempt(r, next) && r.lru == [next] + [h];
    hide C.Good, C.Exempt;
    SurvivorsStep([next], h, r.cache, C.Exempt(r, next), r.resident, r.budget);
    hide Survivors;
  }

  /** A decrypted plaintext that is used and then destroyed stays on the device, and in the books, with
      nobody left to own it. */
  lemma DestroyedPlaintextStays(encoding: P.Content, bytes: nat)
    ensures var start := World(P.EMPTY, C.EMPTY, 1);
      var run := [NewPlaintext(0, encoding, false), LoadPlaintext(0, bytes), DestroyPlaintext(0)];
      && EnabledRun(Reference(map[], map[], {}), run)
      && var p := After(start, run).plain;
      p.objects == map[] && p.device == map[1 := encoding] && p.lru == [1] && p.resident == bytes
  {
    var start := World(P.EMPTY, C.EMPTY, 1);
    var a, b, c := NewPlaintext(0, encoding, false), LoadPlaintext(0, bytes), DestroyPlaintext(0);
    var w := Step(start, a);
    assert w.plain.objects == map[0 := P.Plain(encoding, 0, false, false)];
    var v := Step(w, b);
    assert v.plain.device == map[1 := encoding] && v.plain.objects == map[0 := P.Plain(encoding, 1, true, false)];
    var u := Step(v, c);
    assert u.plain.objects == map[];
    ThreeEvents(start, a, b, c);
    EnabledThree(Reference(map[], map[], {}), a, b, c);
  }

  lemma ThreeEvents(w: World, a: Event, b: Event, c: Event)
    requires Applicable(w, a) && Applicable(Step(w, a), b) && Applicable(Step(Step(w, a), b), c)
    ensures After(w, [a, b, c]) == Step(Step(Step(w, a), b), c)
  {
    hide Applicable, Step;
    assert [a, b, c][1..] == [b, c] && [b, c][1..] == [c] && [c][1..] == [];
    var v := Step(Step(w, a), b);
    assert After(v, [c]) == After(Step(v, c), []);
    assert After(Step(w, a), [b, c]) == After(v, [c]);
  }

  lemma EnabledThree(r: Reference, a: Event, b: Event, c: Event)
    requires Enabled(r, a) && Enabled(ReferenceStep(r, a), b) && Enabled(ReferenceStep(ReferenceStep(r, a), b), c)
    ensures EnabledRun(r, [a, b, c])
  {
    hide Enabled, ReferenceStep;
    assert [a, b, c][1..] == [b, c] && [b, c][1..] == [c] && [c][1..] == [];
    var t := ReferenceStep(ReferenceStep(r, a), b);
    assert EnabledRun(ReferenceStep(t, c), []);
    assert EnabledRun(t, [c]);
    assert EnabledRun(ReferenceStep(r, a), [b, c]);
  }

  /** A fresh context is a legal start. */
  lemma FreshContext()
    ensures Good(World(P.EMPTY, C.EMPTY, 1)) && Shows(World(P.EMPTY, C.EMPTY, 1), Reference(map[], map[], {}))
  {
  }
}
