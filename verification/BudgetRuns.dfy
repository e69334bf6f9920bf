/** The plaintext cache keeps its limit over whole runs of the API: between two events no hold is open, and
    the cache is within its budget unless all it holds is pinned, apart from one plaintext at most. */
module BudgetRuns {
  import opened Recency
  import opened CacheRuns
  import P = PlaintextCache
  import C = CiphertextCache

  /** Everything registered is pinned, except perhaps `one`. */
  ghost predicate PinnedBut(p: P.State, one: Handle) { forall h :: h in p.lru ==> h == one || h in p.pinned }

  ghost predicate Settled(p: P.State) {
    p.hold == 0 && (p.budget == SIZE_MAX || p.resident <= p.budget || exists one :: PinnedBut(p, one))
  }

  lemma AppliedSettles(s: P.State, t: P.State, protect: Handle)
    requires s.hold == 0 && P.BudgetApplied(s, t, protect)
    ensures Settled(t)
  {
    if s.budget != SIZE_MAX && t.resident > t.budget {
      assert PinnedBut(t, protect);
    }
    hide IsCut, SumBytes;
  }

  lemma ClosingSettles(p: P.State, next: Handle)
    requires P.Good(p, next) && p.hold == 1
    ensures Settled(P.HoldClosed(p))
  {
    hide P.Good, P.HoldClosed, P.BudgetApplied, Settled;
    P.ClosingApplies(p, next);
    AppliedSettles(p.(hold := 0), P.HoldClosed(p), 0);
  }

  lemma LoadSettles(p: P.State, next: Handle, id: Id, bytes: nat)
    requires P.Good(p, next) && id in p.objects && Settled(p)
    ensures Settled(P.Loaded(p, id, bytes, next))
  {
    if !p.objects[id].loaded {
      hide P.Good, P.Loaded, P.BudgetApplied;
      P.LoadingApplies(p, next, id, bytes);
      AppliedSettles(P.Registered(p, id, bytes, next), P.Loaded(p, id, bytes, next), next);
    }
  }

  lemma PinSettles(p: P.State, next: Handle, id: Id, bytes: nat)
    requires P.Good(p, next) && id in p.objects && p.hold == 0
    ensures Settled(P.HoldClosed(P.Pinned(P.Loaded(P.HoldOpened(p), id, bytes, next), id)))
    ensures Settled(P.HoldClosed(P.Unpinned(P.HoldOpened(p), id)))
  {
    hide P.Good, P.Loaded, P.HoldClosed, P.BudgetApplied, P.Uploaded, P.Encodings, Settled, P.Unpinned, P.NextHandle;
    var o := P.HoldOpened(p);
    P.GoodHoldOpened(p, next);
    P.LoadedUnderHold(o, next, id, bytes);
    var l, n := P.Loaded(o, id, bytes, next), P.NextHandle(o, id, next);
    P.GoodPinned(l, n, id);
    ClosingSettles(P.Pinned(l, id), n);
    P.UnpinningApplies(p, next, id);
    AppliedSettles(p.(pinned := p.pinned - {p.objects[id].gpu}), P.HoldClosed(P.Unpinned(o, id)), 0);
  }

  /** What only leaves the list cannot unsettle it. */
  lemma FewerSettle(p: P.State, q: P.State)
    requires Settled(p) && q.hold == p.hold && q.budget == p.budget && q.resident <= p.resident
    requires forall h :: h in q.lru ==> h in p.lru && (h in p.pinned ==> h in q.pinned)
    ensures Settled(q)
  {
    if p.budget != SIZE_MAX && q.resident > q.budget {
      var one :| PinnedBut(p, one);
      assert PinnedBut(q, one);
    }
  }

  lemma DestroySettles(p: P.State, next: Handle, id: Id)
    requires P.Good(p, next) && id in p.objects && Settled(p)
    ensures Settled(P.Destroyed(p, id))
  {
    var h := p.objects[id].gpu;
    P.GoodDestroyed(p, next, id);
    hide P.Good, Settled;
    FewerSettle(p, P.Destroyed(p, id));
  }

  lemma PlainStepSettles(p: P.State, next: Handle, e: Event)
    requires P.Good(p, next) && Applicable(World(p, C.EMPTY, next), e) && OnPlaintexts(e) && Settled(p)
    ensures Settled(PlainStep(p, next, e).0)
  {
    hide P.Good, Settled, P.Loaded, P.Destroyed, P.HoldClosed, P.AllOffloaded, P.BudgetSet, P.Encodings;
    match e
    case NewPlaintext(id, content, attached) => FewerSettle(p, P.Created(p, id, content, attached));
    case RewritePlaintext(id, content) => FewerSettle(p, P.EncodingSet(p, id, content));
    case LoadPlaintext(id, bytes) => LoadSettles(p, next, id, bytes);
    case DestroyPlaintext(id) => DestroySettles(p, next, id);
    case PinPlaintext(id, bytes) => NoHold(p); PinSettles(p, next, id, bytes);
    case UnpinPlaintext(id) => NoHold(p); PinSettles(p, next, id, 0);
    case OffloadPlaintexts => OffloadSettles(p, next);
    case SetPlaintextCache(limit) =>
      NoHold(p);
      P.NewBudgetApplies(p, next, limit);
      AppliedSettles(p.(budget := limit), P.BudgetSet(p, limit), 0);
  }

  lemma NoHold(p: P.State)
    requires Settled(p)
    ensures p.hold == 0
  {
  }

  lemma OffloadSettles(p: P.State, next: Handle)
    requires P.Good(p, next) && Settled(p)
    ensures Settled(P.AllOffloaded(p))
  {
    P.GoodAllOffloaded(p, next);
    var q := P.AllOffloaded(p);
    P.GoodBooks(q, next);
    assert PinnedBut(q, 0);
    hide P.Good;
  }

  lemma OperateSettles(w: World, e: Event)
    requires Good(w) && e.Operate? && Applicable(w, e) && Settled(w.plain)
    ensures Settled(Step(w, e).plain)
  {
    hide *;
    OperateParts(w, e);
    NoHold(w.plain);
    WorkingMatches(w, e.cts, e.pts);
    WorkingHold(w, e.cts, e.pts);
    var v := Working(w, e.cts, e.pts);
    GoodParts(v);
    ClosingSettles(v.plain, v.next);
  }

  lemma OperateParts(w: World, e: Event)
    requires e.Operate? && Applicable(w, e)
    ensures CiphersOf(w.cipher, e.cts) && PlainsOf(w.plain, e.pts)
    ensures Step(w, e).plain == P.HoldClosed(Working(w, e.cts, e.pts).plain)
  {
    hide Working, StoreAll, Reads, P.HoldClosed, Results;
  }

  lemma GoodParts(w: World)
    requires Good(w)
    ensures P.Good(w.plain, w.next) && C.Good(w.cipher, w.next)
  {
    hide P.Good, C.Good;
  }

  lemma WorkingHold(w: World, cts: seq<Use>, pts: seq<Use>)
    requires Good(w) && CiphersOf(w.cipher, cts) && PlainsOf(w.plain, pts)
    ensures Working(w, cts, pts).plain.hold == w.plain.hold + 1
  {
    hide P.Good, C.Good, LoadAll, FetchAll, UseAll, C.View, P.Encodings, P.Uploaded, AllLoaded, P.Kept;
    GoodLoadAll(w.cipher, w.next, cts);
    P.GoodHoldOpened(w.plain, w.next);
    var n := LoadAll(w.cipher, w.next, cts).1;
    P.GoodLater(P.HoldOpened(w.plain), w.next, n);
    GoodUseAll(P.HoldOpened(w.plain), n, pts);
  }

  lemma StepSettles(w: World, e: Event)
    requires Good(w) && Applicable(w, e) && Settled(w.plain)
    ensures Settled(Step(w, e).plain)
  {
    if e.Operate? {
      OperateSettles(w, e);
    } else if OnPlaintexts(e) {
      PlainStepSettles(w.plain, w.next, e);
    }
    hide P.Good, C.Good, Settled, PlainStep, CipherStep, Working;
  }

  /** Main result on the limit: whatever a run loads, uses, pins, unpins and destroys, and however it moves
      the limit, the plaintext cache is within it after every event, or has nothing left to evict apart
      from one plaintext. */
  lemma {:induction false} LimitIsKept(w: World, r: Reference, es: seq<Event>)
    requires Good(w) && Shows(w, r) && EnabledRun(r, es) && Settled(w.plain)
    ensures Settled(After(w, es).plain)
    decreases |es|
  {
    if es != [] {
      StepMatches(w, r, es[0]);
      StepSettles(w, es[0]);
      hide Good, Step, Shows, ReferenceStep, Enabled, Applicable, Settled;
      LimitIsKept(Step(w, es[0]), ReferenceStep(r, es[0]), es[1..]);
    }
  }

  /** So it is in every run of a fresh context. */
  lemma LimitIsKeptFromTheStart(es: seq<Event>)
    requires EnabledRun(Reference(map[], map[], {}), es)
    ensures Settled(After(World(P.EMPTY, C.EMPTY, 1), es).plain)
  {
    FreshContext();
    hide Good, Shows, EnabledRun, After;
    LimitIsKept(World(P.EMPTY, C.EMPTY, 1), Reference(map[], map[], {}), es);
  }
}
