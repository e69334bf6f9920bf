/** Recency lists: handles by recency of use, most recent first, with the bytes each one holds. Both
    caches evict from the back of such a list, and are proved against `Survivors` below. */
module Recency {

  type Handle = nat

  /** An object of the API. */
  type Id = nat

  /** An unlimited budget. */
  const SIZE_MAX: nat := 0xFFFF_FFFF_FFFF_FFFF

  /** The saturating subtraction both caches use on their byte counts. */
  function Minus(a: nat, b: nat): nat { if b <= a then a - b else 0 }

  /** Bookkeeping for one tracked handle; `mark` is what a cache keeps beside the size. */
  datatype Entry<T> = Entry(bytes: nat, mark: T)

  ghost predicate NoDuplicates(s: seq<Handle>) {
    forall i, j :: 0 <= i < j < |s| ==> s[i] != s[j]
  }

  function Bytes<T>(cache: map<Handle, Entry<T>>, h: Handle): nat { if h in cache then cache[h].bytes else 0 }

  function SumBytes<T>(s: seq<Handle>, cache: map<Handle, Entry<T>>): nat {
    if s == [] then 0 else Bytes(cache, s[0]) + SumBytes(s[1..], cache)
  }

  function Without(s: seq<Handle>, h: Handle): (r: seq<Handle>)
    ensures forall k :: k in r <==> k in s && k != h
  {
    if s == [] then [] else if s[0] == h then Without(s[1..], h) else [s[0]] + Without(s[1..], h)
  }

  function Keep(s: seq<Handle>, keep: set<Handle>): (r: seq<Handle>)
    ensures forall k :: k in r <==> k in s && k in keep
  {
    if s == [] then [] else if s[0] in keep then [s[0]] + Keep(s[1..], keep) else Keep(s[1..], keep)
  }

  function Restrict<V>(m: map<Handle, V>, keep: seq<Handle>): (r: map<Handle, V>)
    ensures forall h :: h in r <==> h in m && h in keep
    ensures forall h :: h in r ==> r[h] == m[h]
  {
    map h | h in m && h in keep :: m[h]
  }

  lemma RestrictWithout<V>(m: map<Handle, V>, keep: seq<Handle>, h: Handle)
    ensures Restrict(m, keep) - {h} == Restrict(m, Without(keep, h))
  {
    hide Restrict, Without;
  }

  // ---- Lists and sums ----

  lemma NoDuplicatesTail(s: seq<Handle>)
    requires NoDuplicates(s) && s != []
    ensures NoDuplicates(s[1..]) && s[0] !in s[1..]
  {
  }

  lemma NoDuplicatesCons(h: Handle, s: seq<Handle>)
    requires NoDuplicates(s) && h !in s
    ensures NoDuplicates([h] + s)
  {
  }

  lemma {:induction false} NotThere(s: seq<Handle>, h: Handle)
    requires h !in s
    ensures Without(s, h) == s
  {
    if s != [] {
      NotThere(s[1..], h);
    }
  }

  lemma {:induction false} WithoutStays(s: seq<Handle>, h: Handle)
    requires NoDuplicates(s)
    ensures NoDuplicates(Without(s, h))
  {
    if s != [] {
      NoDuplicatesTail(s);
      WithoutStays(s[1..], h);
      if s[0] != h {
        NoDuplicatesCons(s[0], Without(s[1..], h));
      }
    }
  }

  /** Removing one handle takes exactly its bytes off the sum. */
  lemma {:induction false} WithoutSum<T>(s: seq<Handle>, h: Handle, cache: map<Handle, Entry<T>>)
    requires NoDuplicates(s) && h in s
    ensures SumBytes(Without(s, h), cache) == SumBytes(s, cache) - Bytes(cache, h)
  {
    NoDuplicatesTail(s);
    if s[0] == h {
      NotThere(s[1..], h);
    } else {
      WithoutSum(s[1..], h, cache);
      assert Without(s, h)[1..] == Without(s[1..], h);
    }
  }

  /** Only the sizes of the handles in the list matter. */
  lemma {:induction false} SumAgrees<T>(s: seq<Handle>, c: map<Handle, Entry<T>>, d: map<Handle, Entry<T>>)
    requires forall h :: h in s ==> Bytes(c, h) == Bytes(d, h)
    ensures SumBytes(s, c) == SumBytes(s, d)
  {
    if s != [] {
      SumAgrees(s[1..], c, d);
    }
  }

  lemma {:induction false} SumLast<T>(s: seq<Handle>, cache: map<Handle, Entry<T>>)
    requires s != []
    ensures SumBytes(s, cache) == SumBytes(s[..|s| - 1], cache) + Bytes(cache, s[|s| - 1])
  {
    if |s| > 1 {
      SumLast(s[1..], cache);
      assert s[1..][..|s| - 2] == s[..|s| - 1][1..];
    }
  }

  /** A handle that enters at the front adds its bytes. */
  lemma PushFront<T>(s: seq<Handle>, cache: map<Handle, Entry<T>>, h: Handle, e: Entry<T>)
    requires NoDuplicates(s) && h !in s
    ensures NoDuplicates([h] + s)
    ensures SumBytes([h] + s, cache[h := e]) == e.bytes + SumBytes(s, cache)
  {
    NoDuplicatesCons(h, s);
    assert ([h] + s)[1..] == s;
    SumAgrees(s, cache, cache[h := e]);
  }

  /** A handle that leaves takes its bytes with it, whatever becomes of its entry. */
  lemma Leave<T>(s: seq<Handle>, cache: map<Handle, Entry<T>>, h: Handle, after: map<Handle, Entry<T>>)
    requires NoDuplicates(s) && h in s
    requires forall k :: k in s && k != h ==> Bytes(after, k) == Bytes(cache, k)
    ensures NoDuplicates(Without(s, h))
    ensures Bytes(cache, h) <= SumBytes(s, cache) && SumBytes(Without(s, h), after) == SumBytes(s, cache) - Bytes(cache, h)
  {
    WithoutStays(s, h);
    WithoutSum(s, h, cache);
    SumAgrees(Without(s, h), cache, after);
  }

  lemma {:induction false} KeepDistinct(s: seq<Handle>, keep: set<Handle>)
    requires NoDuplicates(s)
    ensures NoDuplicates(Keep(s, keep))
  {
    if s != [] {
      NoDuplicatesTail(s);
      KeepDistinct(s[1..], keep);
      if s[0] in keep {
        NoDuplicatesCons(s[0], Keep(s[1..], keep));
      }
    }
  }

  lemma {:induction false} WithoutShorter(s: seq<Handle>, h: Handle)
    ensures |Without(s, h)| <= |s| && (h in s ==> |Without(s, h)| < |s|)
  {
    if s != [] {
      WithoutShorter(s[1..], h);
    }
  }

  lemma {:induction false} KeepAll(s: seq<Handle>, keep: set<Handle>)
    requires forall h :: h in s ==> h in keep
    ensures Keep(s, keep) == s
  {
    if s != [] {
      KeepAll(s[1..], keep);
    }
  }

  lemma {:induction false} KeepLess(s: seq<Handle>, keep: set<Handle>, h: Handle)
    ensures Keep(s, keep - {h}) == Without(Keep(s, keep), h)
  {
    if s != [] {
      KeepLess(s[1..], keep, h);
      if s[0] in keep {
        assert Keep(s, keep)[1..] == Keep(s[1..], keep);
      }
    }
  }

  lemma {:induction false} WithoutMiddle(a: seq<Handle>, h: Handle, b: seq<Handle>)
    requires NoDuplicates(a + [h] + b)
    ensures Without(a + [h] + b, h) == a + b && NoDuplicates(a + b)
  {
    var s := a + [h] + b;
    if a == [] {
      assert s[0] == h && s[1..] == b && a + b == b;
      assert h !in b by {
        assert forall k :: 0 <= k < |b| ==> b[k] == s[k + 1];
      }
      NotThere(b, h);
      NoDuplicatesTail(s);
    } else {
      assert s[1..] == a[1..] + [h] + b && s[0] == a[0];
      NoDuplicatesTail(s);
      WithoutMiddle(a[1..], h, b);
      assert s[|a|] == h && s[0] != s[|a|];
      assert a + b == [a[0]] + (a[1..] + b);
      assert a[0] !in a[1..] + b by {
        assert forall x :: x in a[1..] + b ==> x in s[1..];
      }
      NoDuplicatesCons(a[0], a[1..] + b);
    }
  }

  /** A list and a byte count that go together. */
  ghost predicate Counted<T>(s: seq<Handle>, cache: map<Handle, Entry<T>>, resident: nat) {
    NoDuplicates(s) && resident == SumBytes(s, cache)
  }

  lemma CountedTrack<T>(s: seq<Handle>, cache: map<Handle, Entry<T>>, resident: nat, h: Handle, e: Entry<T>)
    requires Counted(s, cache, resident) && h !in s
    ensures Counted([h] + s, cache[h := e], resident + e.bytes)
  {
    PushFront(s, cache, h, e);
  }

  /** What leaves was part of the sum, so the saturating subtraction does not clip. */
  lemma CountedLeave<T>(s: seq<Handle>, cache: map<Handle, Entry<T>>, resident: nat, h: Handle)
    requires Counted(s, cache, resident) && h in s && h in cache
    ensures cache[h].bytes <= resident && h !in Without(s, h)
    ensures Counted(Without(s, h), cache - {h}, resident - cache[h].bytes)
  {
    Leave(s, cache, h, cache - {h});
  }

  lemma TouchedSum<T>(s: seq<Handle>, h: Handle, cache: map<Handle, Entry<T>>)
    requires NoDuplicates(s) && h in s
    ensures SumBytes([h] + Without(s, h), cache) == SumBytes(s, cache)
  {
    WithoutSum(s, h, cache);
    hide NoDuplicates, Without;
    assert ([h] + Without(s, h))[1..] == Without(s, h);
  }

  /** Touching puts a handle in front and keeps the order of the others. */
  lemma TouchedOrder(s: seq<Handle>, h: Handle)
    requires NoDuplicates(s)
    ensures NoDuplicates([h] + Without(s, h)) && ([h] + Without(s, h))[0] == h
    ensures Without([h] + Without(s, h), h) == Without(s, h)
    ensures forall k :: k in [h] + Without(s, h) <==> k in s || k == h
  {
    WithoutStays(s, h);
    NoDuplicatesCons(h, Without(s, h));
    NotThere(Without(s, h), h);
    assert ([h] + Without(s, h))[1..] == Without(s, h);
  }

  // ---- Eviction ----

  /** What stays when a cache holding `resident` bytes has to come down to `budget`: from the back,
      every handle that is not exempt goes until the budget is met. */
  function Survivors<T>(s: seq<Handle>, cache: map<Handle, Entry<T>>, exempt: set<Handle>, resident: int, budget: nat): (r: seq<Handle>)
    ensures forall h :: h in r ==> h in s
    ensures forall h :: h in s && h in exempt ==> h in r
    decreases |s|
  {
    if resident <= budget || s == [] then s
    else
      var init, last := s[..|s| - 1], s[|s| - 1];
      assert forall h :: h in s ==> h in init || h == last;
      if last in exempt then Survivors(init, cache, exempt, resident, budget) + [last]
      else Survivors(init, cache, exempt, resident - Bytes(cache, last), budget)
  }

  /** The victim of one round of the rescanning loop: the last handle that is not exempt. */
  ghost predicate IsVictim(s: seq<Handle>, exempt: set<Handle>, at: nat) {
    at < |s| && s[at] !in exempt && forall k :: at < k < |s| ==> s[k] in exempt
  }

  lemma {:induction false} AllExempt<T>(s: seq<Handle>, cache: map<Handle, Entry<T>>, exempt: set<Handle>, resident: int, budget: nat)
    requires forall h :: h in s ==> h in exempt
    ensures Survivors(s, cache, exempt, resident, budget) == s
    decreases |s|
  {
    if resident > budget && s != [] {
      hide *;
      FrontIn(s);
      SurvivorsStep(s[..|s| - 1], s[|s| - 1], cache, exempt, resident, budget);
      AllExempt(s[..|s| - 1], cache, exempt, resident, budget);
    }
  }

  lemma {:induction false} WithoutLast(s: seq<Handle>, h: Handle)
    requires NoDuplicates(s) && s != []
    ensures Without(s, s[|s| - 1]) == s[..|s| - 1]
    ensures h != s[|s| - 1] ==> Without(s, h) == Without(s[..|s| - 1], h) + [s[|s| - 1]]
  {
    var last := s[|s| - 1];
    if |s| == 1 {
      assert s == [last] && Without(s[1..], h) == [] && Without(s[1..], last) == [];
    } else {
      NoDuplicatesTail(s);
      WithoutLast(s[1..], h);
      assert s[1..][..|s| - 2] == s[..|s| - 1][1..];
      assert s[..|s| - 1] == [s[0]] + s[..|s| - 1][1..];
    }
  }

  lemma SurvivorsStep<T>(init: seq<Handle>, last: Handle, cache: map<Handle, Entry<T>>, exempt: set<Handle>, resident: int, budget: nat)
    ensures Survivors(init + [last], cache, exempt, resident, budget) ==
      if resident <= budget then init + [last]
      else if last in exempt then Survivors(init, cache, exempt, resident, budget) + [last]
      else Survivors(init, cache, exempt, resident - Bytes(cache, last), budget)
  {
    var s := init + [last];
    assert s[..|s| - 1] == init && s[|s| - 1] == last;
    assert forall h :: h in init ==> h in s;
    assert last in s;
  }

  lemma FrontIn(s: seq<Handle>)
    requires s != []
    ensures s == s[..|s| - 1] + [s[|s| - 1]] && s[|s| - 1] in s && forall h :: h in s[..|s| - 1] ==> h in s
  {
  }

  /** Evicting the victim and starting over is what `Survivors` does. */
  lemma {:induction false} EvictOne<T>(s: seq<Handle>, cache: map<Handle, Entry<T>>, exempt: set<Handle>, resident: int, budget: nat, at: nat)
    requires NoDuplicates(s) && IsVictim(s, exempt, at) && resident > budget
    ensures Survivors(s, cache, exempt, resident, budget)
         == Survivors(Without(s, s[at]), cache, exempt, resident - Bytes(cache, s[at]), budget)
    decreases |s|
  {
    hide *;
    Victim(s, exempt, at);
    var init, last, victim := s[..|s| - 1], s[|s| - 1], s[at];
    FrontIn(s);
    WithoutLast(s, victim);
    SurvivorsStep(init, last, cache, exempt, resident, budget);
    if at < |s| - 1 {
      EvictOne(init, cache, exempt, resident, budget, at);
      KeepTail(Without(init, victim), last, cache, exempt, resident - Bytes(cache, victim), budget);
    }
  }

  lemma Victim(s: seq<Handle>, exempt: set<Handle>, at: nat)
    requires NoDuplicates(s) && IsVictim(s, exempt, at)
    ensures at < |s| && s[at] !in exempt
    ensures at < |s| - 1 ==> IsVictim(s[..|s| - 1], exempt, at) && NoDuplicates(s[..|s| - 1])
    ensures at < |s| - 1 ==> s[at] == s[..|s| - 1][at] && s[at] != s[|s| - 1] && s[|s| - 1] in exempt
  {
  }

  /** An exempt handle at the back changes nothing for the others. */
  lemma KeepTail<T>(rest: seq<Handle>, last: Handle, cache: map<Handle, Entry<T>>, exempt: set<Handle>, resident: int, budget: nat)
    requires last in exempt
    ensures Survivors(rest + [last], cache, exempt, resident, budget) == Survivors(rest, cache, exempt, resident, budget) + [last]
  {
    SurvivorsStep(rest, last, cache, exempt, resident, budget);
    if resident <= budget {
      ExemptStay(rest, cache, exempt, resident, budget);
    }
    hide Survivors;
  }

  lemma ExemptStay<T>(s: seq<Handle>, cache: map<Handle, Entry<T>>, exempt: set<Handle>, resident: int, budget: nat)
    requires resident <= budget
    ensures Survivors(s, cache, exempt, resident, budget) == s
  {
  }

  lemma {:induction false} KeepLast(s: seq<Handle>, last: Handle, keep: set<Handle>)
    ensures Keep(s + [last], keep) == Keep(s, keep) + if last in keep then [last] else []
  {
    if s == [] {
      assert [last][1..] == [];
    } else {
      assert (s + [last])[1..] == s[1..] + [last];
      KeepLast(s[1..], last, keep);
    }
  }

  /** What `Survivors` leaves of s when `other` further bytes, all exempt, count against the budget. */
  ghost predicate IsCut<T>(s: seq<Handle>, r: seq<Handle>, cache: map<Handle, Entry<T>>, exempt: set<Handle>, other: nat, budget: nat, cut: nat)
    requires forall h :: h in r ==> h in s
  {
    && cut <= |s|
    && r == s[..cut] + Keep(s[cut..], exempt)
    && (cut < |s| ==> s[cut] !in exempt && SumBytes(r, cache) + other + Bytes(cache, s[cut]) > budget)
    && (SumBytes(r, cache) + other <= budget || forall h :: h in r ==> h in exempt)
  }

  /** Main result on eviction. Some prefix of the list survives whole and of the rest exactly the
      exempt handles, in the same order: strictly the least recently used go. The newest one that
      went was still needed to meet the budget, and afterwards the budget is met or only exempt
      handles are left. */
  lemma {:induction false} OldestGo<T>(s: seq<Handle>, cache: map<Handle, Entry<T>>, exempt: set<Handle>, resident: int, budget: nat, other: nat)
    returns (cut: nat)
    requires resident == SumBytes(s, cache) + other
    ensures IsCut(s, Survivors(s, cache, exempt, resident, budget), cache, exempt, other, budget, cut)
    decreases |s|
  {
    hide *;
    if resident <= budget || s == [] {
      cut := |s|;
      NothingGoes(s, cache, exempt, resident, budget, other);
    } else {
      var init, last := s[..|s| - 1], s[|s| - 1];
      FrontIn(s);
      SumLast(s, cache);
      SurvivorsStep(init, last, cache, exempt, resident, budget);
      if last in exempt {
        cut := OldestGo(init, cache, exempt, resident, budget, other + Bytes(cache, last));
        PassExempt(init, last, Survivors(init, cache, exempt, resident, budget), cache, exempt, other, budget, cut);
        cut := if cut == |init| then cut + 1 else cut;
      } else {
        cut := OldestGo(init, cache, exempt, resident - Bytes(cache, last), budget, other);
        PassVictim(init, last, Survivors(init, cache, exempt, resident - Bytes(cache, last), budget), cache, exempt, other, budget, cut);
      }
    }
  }

  lemma NothingGoes<T>(s: seq<Handle>, cache: map<Handle, Entry<T>>, exempt: set<Handle>, resident: int, budget: nat, other: nat)
    requires resident == SumBytes(s, cache) + other && (resident <= budget || s == [])
    ensures IsCut(s, Survivors(s, cache, exempt, resident, budget), cache, exempt, other, budget, |s|)
  {
    assert s[..|s|] == s && Keep(s[|s|..], exempt) == [];
  }

  lemma PassExempt<T>(init: seq<Handle>, last: Handle, r: seq<Handle>, cache: map<Handle, Entry<T>>, exempt: set<Handle>, other: nat, budget: nat, cut: nat)
    requires last in exempt
    requires (forall h :: h in r ==> h in init) && IsCut(init, r, cache, exempt, other + Bytes(cache, last), budget, cut)
    ensures forall h :: h in r + [last] ==> h in init + [last]
    ensures IsCut(init + [last], r + [last], cache, exempt, other, budget, if cut == |init| then cut + 1 else cut)
  {
    var s := init + [last];
    var c := if cut == |init| then cut + 1 else cut;
    SumLast(r + [last], cache);
    assert (r + [last])[..|r|] == r;
    if cut == |init| {
      assert s[..c] == s && s[c..] == [] && r == init;
    } else {
      assert s[..c] == init[..c] && s[c..] == init[c..] + [last];
      KeepLast(init[c..], last, exempt);
    }
  }

  lemma PassVictim<T>(init: seq<Handle>, last: Handle, r: seq<Handle>, cache: map<Handle, Entry<T>>, exempt: set<Handle>, other: nat, budget: nat, cut: nat)
    requires last !in exempt
    requires (forall h :: h in r ==> h in init) && IsCut(init, r, cache, exempt, other, budget, cut)
    requires SumBytes(init, cache) + Bytes(cache, last) + other > budget
    ensures (forall h :: h in r ==> h in init + [last]) && IsCut(init + [last], r, cache, exempt, other, budget, cut)
  {
    var s := init + [last];
    assert s[..cut] == init[..cut] && s[cut..] == init[cut..] + [last];
    KeepLast(init[cut..], last, exempt);
    if cut == |init| {
      assert r == init;
    }
  }
  lemma {:induction false} SurvivorsDistinct<T>(s: seq<Handle>, cache: map<Handle, Entry<T>>, exempt: set<Handle>, resident: int, budget: nat)
    requires NoDuplicates(s)
    ensures NoDuplicates(Survivors(s, cache, exempt, resident, budget))
    decreases |s|
  {
    if resident > budget && s != [] {
      hide *;
      var init, last := s[..|s| - 1], s[|s| - 1];
      FrontIn(s);
      FrontDistinct(s);
      SurvivorsStep(init, last, cache, exempt, resident, budget);
      SurvivorsDistinct(init, cache, exempt, resident, budget);
      SurvivorsDistinct(init, cache, exempt, resident - Bytes(cache, last), budget);
      BackDistinct(Survivors(init, cache, exempt, resident, budget), last);
    }
  }

  lemma FrontDistinct(s: seq<Handle>)
    requires NoDuplicates(s) && s != []
    ensures NoDuplicates(s[..|s| - 1]) && s[|s| - 1] !in s[..|s| - 1]
  {
  }

  lemma BackDistinct(s: seq<Handle>, last: Handle)
    ensures NoDuplicates(s) && last !in s ==> NoDuplicates(s + [last])
  {
  }
}
