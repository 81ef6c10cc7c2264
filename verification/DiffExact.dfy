/** Diff, then apply: exact if and only if the entries left in place keep
    their order and every text append is faithful. */
module DiffExact {
  import opened Options
  import opened Parts
  import opened Frames
  import opened Diff

  // ── the copy after the removals ───────────────────────────────────────────

  lemma ConsIx(h: Entry, t: seq<Entry>, x: string)
    ensures Ix([h] + t, x) == if h.id == x then 0 else if Ix(t, x) < 0 then -1 else Ix(t, x) + 1
  {
    var list := [h] + t;
    assert forall k :: 0 < k < |list| ==> list[k] == t[k - 1];
    var r := Ix(list, x);
    if h.id == x {
      assert FirstAt(list, x, 0);
      FirstAtUnique(list, x, 0, r);
    } else if Ix(t, x) >= 0 {
      assert FirstAt(list, x, Ix(t, x) + 1);
      FirstAtUnique(list, x, Ix(t, x) + 1, r);
    }
  }

  /** What stays stays as it was, in the same order. */
  lemma {:induction false} RetainedFacts(list: seq<Entry>, remove: seq<string>, x: string, y: string)
    requires Unique(list)
    ensures var kept := Retained(list, remove);
      && Unique(kept)
      && (Has(kept, x) <==> Has(list, x) && x !in remove)
      && (Has(kept, x) ==> kept[Ix(kept, x)] == list[Ix(list, x)])
      && (Has(kept, x) && Has(kept, y) ==> (Ix(kept, x) < Ix(kept, y) <==> Ix(list, x) < Ix(list, y)))
    decreases |list|
  {
    if list == [] {
    } else {
      var h, t := list[0], list[1..];
      assert list == [h] + t;
      assert forall i :: 0 <= i < |t| ==> t[i] == list[i + 1];
      assert Unique(t) && !Has(t, h.id);
      RetainedFacts(t, remove, x, y);
      RetainedFacts(t, remove, h.id, y);
      RetainedFacts(t, remove, y, x);
      var rest := Retained(t, remove);
      ConsIx(h, t, x);
      ConsIx(h, t, y);
      if h.id !in remove {
        UniqueCons(h, rest);
        ConsIx(h, rest, x);
        ConsIx(h, rest, y);
        assert Retained(list, remove) == [h] + rest;
      } else {
        assert Retained(list, remove) == rest;
      }
    }
  }

  lemma UniqueCons(h: Entry, t: seq<Entry>)
    requires Unique(t) && !Has(t, h.id)
    ensures Unique([h] + t)
  {
    var list := [h] + t;
    assert forall k :: 0 < k < |list| ==> list[k] == t[k - 1];
  }

  lemma {:induction false} RemovedIff(prev: seq<Entry>, next: seq<Entry>, n: nat, x: string)
    requires n <= |prev|
    ensures x in Removed(prev, next, n) <==> !Has(next, x) && exists k :: 0 <= k < n && prev[k].id == x
  {
    if n == 0 {
    } else {
      RemovedIff(prev, next, n - 1, x);
    }
  }

  /** The held copy once the removals are done: shared entries, old versions, old order. */
  ghost function Kept(prev: seq<Entry>, next: seq<Entry>): seq<Entry> {
    Retained(prev, Removed(prev, next, |prev|))
  }

  lemma KeptFacts(prev: seq<Entry>, next: seq<Entry>, x: string, y: string)
    requires Unique(prev)
    ensures var kept := Kept(prev, next);
      && Unique(kept)
      && (Has(kept, x) <==> Has(prev, x) && Has(next, x))
      && (Has(kept, x) ==> kept[Ix(kept, x)] == prev[Ix(prev, x)])
      && (Has(kept, x) && Has(kept, y) ==> (Ix(kept, x) < Ix(kept, y) <==> Ix(prev, x) < Ix(prev, y)))
  {
    RetainedFacts(prev, Removed(prev, next, |prev|), x, y);
    RemovedIff(prev, next, |prev|, x);
  }

  // ── the upserts ───────────────────────────────────────────────────────────

  /** Entry `x` is one of the first `n` of `next` and was upserted. */
  ghost predicate Upserted(prev: seq<Entry>, next: seq<Entry>, n: nat, x: string)
    requires n <= |next|
  {
    0 <= Ix(next, x) < n && ChangeAt(prev, next, Ix(next, x)).Put?
  }

  /** Entry `x` is left in place by the whole diff. */
  ghost predicate Stays(prev: seq<Entry>, next: seq<Entry>, x: string) {
    Has(next, x) && InPlace(prev, next, Ix(next, x))
  }

  /** The client's list after the upserts among the first `n` changes. */
  ghost predicate Placed(prev: seq<Entry>, next: seq<Entry>, list: seq<Entry>, n: nat)
    requires n <= |next|
  {
    && Unique(list)
    && (forall x {:trigger Has(list, x)} :: Has(list, x) <==> Has(next, x) && (Has(prev, x) || Ix(next, x) < n))
    && (forall x {:trigger Has(list, x)} :: Has(list, x) && Upserted(prev, next, n, x) ==>
      list[Ix(list, x)] == next[Ix(next, x)])
    && (forall x {:trigger Has(list, x)} :: Has(list, x) && !Upserted(prev, next, n, x) ==>
      Has(prev, x) && list[Ix(list, x)] == prev[Ix(prev, x)])
    && (forall x, y {:trigger Stays(prev, next, x), Stays(prev, next, y)} ::
          Stays(prev, next, x) && Stays(prev, next, y) ==> (Ix(list, x) < Ix(list, y) <==> Ix(prev, x) < Ix(prev, y)))
  }

  /** The processed entries stand in order, and before everything still to be left in place. */
  ghost predicate Sorted(prev: seq<Entry>, next: seq<Entry>, list: seq<Entry>, n: nat)
    requires n <= |next|
  {
    && (forall a, b :: 0 <= a < b < n ==> Ix(list, next[a].id) < Ix(list, next[b].id))
    && (forall a, b :: 0 <= a < n <= b < |next| && InPlace(prev, next, b) ==>
      Ix(list, next[a].id) < Ix(list, next[b].id))
  }

  lemma StaysShared(prev: seq<Entry>, next: seq<Entry>, x: string)
    requires Unique(prev) && Stays(prev, next, x)
    ensures Has(prev, x)
  {
    LastIsFirst(prev, x);
  }

  lemma PlacedStart(prev: seq<Entry>, next: seq<Entry>)
    requires Unique(prev) && Unique(next)
    ensures Placed(prev, next, Kept(prev, next), 0) && Sorted(prev, next, Kept(prev, next), 0)
  {
    forall x, y ensures var kept := Kept(prev, next);
      && Unique(kept)
      && (Has(kept, x) <==> Has(prev, x) && Has(next, x))
      && (Has(kept, x) ==> kept[Ix(kept, x)] == prev[Ix(prev, x)])
      && (Has(kept, x) && Has(kept, y) ==> (Ix(kept, x) < Ix(kept, y) <==> Ix(prev, x) < Ix(prev, y)))
    {
      KeptFacts(prev, next, x, y);
    }
    KeptFacts(prev, next, "", "");
    forall x | Stays(prev, next, x) ensures Has(prev, x) {
      StaysShared(prev, next, x);
    }
  }

  /** A change that leaves its entry in place leaves the list alone. */
  lemma PlacedSkip(prev: seq<Entry>, next: seq<Entry>, list: seq<Entry>, n: nat)
    requires Unique(next) && n < |next| && InPlace(prev, next, n)
    requires Placed(prev, next, list, n) && Has(prev, next[n].id)
    ensures Placed(prev, next, list, n + 1)
  {
    IxOf(next, n, next[n].id);
    forall x ensures Upserted(prev, next, n + 1, x) == Upserted(prev, next, n, x)
             ensures Has(next, x) && (Has(prev, x) || Ix(next, x) < n + 1) <==>
               Has(next, x) && (Has(prev, x) || Ix(next, x) < n) {
    }
  }

  lemma StaysBefore(prev: seq<Entry>, next: seq<Entry>, list: seq<Entry>, n: nat, b: nat)
    requires Unique(next) && n < b < |next| && InPlace(prev, next, n) && InPlace(prev, next, b)
    requires Placed(prev, next, list, n) && InPlaceOrdered(prev, next)
    ensures Ix(list, next[n].id) < Ix(list, next[b].id)
  {
    IxOf(next, n, next[n].id);
    IxOf(next, b, next[b].id);
    assert Stays(prev, next, next[n].id) && Stays(prev, next, next[b].id);
  }

  lemma {:induction false} SortedSkip(prev: seq<Entry>, next: seq<Entry>, list: seq<Entry>, n: nat)
    requires Unique(next) && n < |next| && InPlace(prev, next, n) && Sorted(prev, next, list, n)
    requires forall b :: n < b < |next| && InPlace(prev, next, b) ==> Ix(list, next[n].id) < Ix(list, next[b].id)
    ensures Sorted(prev, next, list, n + 1)
  {
    forall a, b | 0 <= a < b < |next| && a <= n &&
      (b <= n || InPlace(prev, next, b)) ensures Ix(list, next[a].id) < Ix(list, next[b].id) {
      assert a == n || a < n;
    }
  }

  ghost function PutOf(prev: seq<Entry>, next: seq<Entry>, n: nat): Upsert
    requires n < |next| && !InPlace(prev, next, n)
  {
    Upsert(PredId(next, n), next[n])
  }

  lemma PutAnchored(prev: seq<Entry>, next: seq<Entry>, list: seq<Entry>, n: nat)
    requires Unique(next) && n < |next| && !InPlace(prev, next, n) && Placed(prev, next, list, n)
    ensures Anchored(list, PutOf(prev, next, n))
  {
    if n > 0 {
      IxOf(next, n - 1, next[n - 1].id);
    }
  }

  /** One other entry under an upsert of the diff. */
  lemma PutOther(prev: seq<Entry>, next: seq<Entry>, list: seq<Entry>, n: nat, x: string)
    requires Unique(next) && n < |next| && !InPlace(prev, next, n) && x != next[n].id
    requires Placed(prev, next, list, n)
    ensures ApplyUpsert(list, PutOf(prev, next, n)).Some?
    ensures var after := ApplyUpsert(list, PutOf(prev, next, n)).value;
      && (Has(after, x) <==> Has(list, x)) && (Has(list, x) ==> after[Ix(after, x)] == list[Ix(list, x)])
      && Upserted(prev, next, n + 1, x) == Upserted(prev, next, n, x)
      && (Ix(next, x) < n + 1 <==> Ix(next, x) < n)
  {
    IxOf(next, n, next[n].id);
    PutAnchored(prev, next, list, n);
    UpsertOther(list, PutOf(prev, next, n), x);
  }

  lemma PutItself(prev: seq<Entry>, next: seq<Entry>, list: seq<Entry>, n: nat)
    requires Unique(next) && n < |next| && !InPlace(prev, next, n)
    requires Placed(prev, next, list, n)
    ensures ApplyUpsert(list, PutOf(prev, next, n)).Some?
    ensures var after := ApplyUpsert(list, PutOf(prev, next, n)).value;
      && Unique(after) && Has(after, next[n].id) && after[Ix(after, next[n].id)] == next[n] && Ix(next, next[n].id) == n
  {
    IxOf(next, n, next[n].id);
    PutAnchored(prev, next, list, n);
    UpsertShape(list, PutOf(prev, next, n));
  }

  /** Entries that stay keep their order under an upsert of the diff. */
  lemma PutKeepsOrder(prev: seq<Entry>, next: seq<Entry>, list: seq<Entry>, n: nat, x: string, y: string)
    requires Unique(prev) && Unique(next) && n < |next| && !InPlace(prev, next, n)
    requires Placed(prev, next, list, n) && Stays(prev, next, x) && Stays(prev, next, y)
    ensures ApplyUpsert(list, PutOf(prev, next, n)).Some?
    ensures var after := ApplyUpsert(list, PutOf(prev, next, n)).value; Ix(after, x) < Ix(after, y) <==>
      Ix(prev, x) < Ix(prev, y)
  {
    IxOf(next, n, next[n].id);
    PutAnchored(prev, next, list, n);
    StaysShared(prev, next, x);
    StaysShared(prev, next, y);
    UpsertOrder(list, PutOf(prev, next, n), x, y);
  }

  lemma PlacedPut(prev: seq<Entry>, next: seq<Entry>, list: seq<Entry>, n: nat)
    requires Unique(prev) && Unique(next) && n < |next| && !InPlace(prev, next, n)
    requires Placed(prev, next, list, n)
    ensures ApplyUpsert(list, PutOf(prev, next, n)).Some?
    ensures Placed(prev, next, ApplyUpsert(list, PutOf(prev, next, n)).value, n + 1)
  {
    PutItself(prev, next, list, n);
    var after := ApplyUpsert(list, PutOf(prev, next, n)).value;
    forall x
      ensures Has(after, x) <==> Has(next, x) && (Has(prev, x) || Ix(next, x) < n + 1)
      ensures Has(after, x) && Upserted(prev, next, n + 1, x) ==> after[Ix(after, x)] == next[Ix(next, x)]
      ensures Has(after, x) && !Upserted(prev, next, n + 1, x) ==>
        Has(prev, x) && after[Ix(after, x)] == prev[Ix(prev, x)]
    {
      if x != next[n].id {
        PutOther(prev, next, list, n, x);
      }
    }
    forall x, y | Stays(prev, next, x) && Stays(prev, next, y)
      ensures Ix(after, x) < Ix(after, y) <==> Ix(prev, x) < Ix(prev, y)
    {
      PutKeepsOrder(prev, next, list, n, x, y);
    }
  }

  /** Entry `i` is processed or will be left in place: the list has it. */
  lemma HeldAside(prev: seq<Entry>, next: seq<Entry>, list: seq<Entry>, n: nat, i: nat)
    requires Unique(prev) && Unique(next) && n < |next| && Placed(prev, next, list, n)
    requires i < |next| && i != n && (i < n || InPlace(prev, next, i))
    ensures Has(list, next[i].id) && next[i].id != next[n].id
  {
    IxOf(next, i, next[i].id);
    IxOf(next, n, next[n].id);
    if i > n {
      StaysShared(prev, next, next[i].id);
    }
  }

  lemma SortedPutPair(prev: seq<Entry>, next: seq<Entry>, list: seq<Entry>, n: nat, a: nat, b: nat)
    requires Unique(prev) && Unique(next) && n < |next| && !InPlace(prev, next, n)
    requires Placed(prev, next, list, n) && Sorted(prev, next, list, n)
    requires a < b < |next| && a <= n && (b <= n || InPlace(prev, next, b))
    ensures ApplyUpsert(list, PutOf(prev, next, n)).Some?
    ensures var after := ApplyUpsert(list, PutOf(prev, next, n)).value; Ix(after, next[a].id) < Ix(after, next[b].id)
  {
    var u := PutOf(prev, next, n);
    PutAnchored(prev, next, list, n);
    if a < n {
      HeldAside(prev, next, list, n, a);
    }
    if b != n {
      HeldAside(prev, next, list, n, b);
    }
    if n > 0 {
      HeldAside(prev, next, list, n, n - 1);
    }
    if a < n && b != n {
      UpsertOrder(list, u, next[a].id, next[b].id);
    } else if a == n {
      UpsertOrder(list, u, if n > 0 then next[n - 1].id else next[b].id, next[b].id);
    } else {
      UpsertOrder(list, u, next[n - 1].id, next[a].id);
      UpsertOrder(list, u, next[a].id, next[n - 1].id);
    }
  }

  lemma SortedPut(prev: seq<Entry>, next: seq<Entry>, list: seq<Entry>, n: nat)
    requires Unique(prev) && Unique(next) && n < |next| && !InPlace(prev, next, n)
    requires Placed(prev, next, list, n) && Sorted(prev, next, list, n)
    requires ApplyUpsert(list, PutOf(prev, next, n)).Some?
    ensures Sorted(prev, next, ApplyUpsert(list, PutOf(prev, next, n)).value, n + 1)
  {
    forall a, b | 0 <= a < b < |next| && a <= n && (b <= n || InPlace(prev, next, b))
      ensures var after := ApplyUpsert(list, PutOf(prev, next, n)).value; Ix(after, next[a].id) < Ix(after, next[b].id)
    {
      SortedPutPair(prev, next, list, n, a, b);
    }
  }

  lemma UpsertsNext(prev: seq<Entry>, next: seq<Entry>, n: nat)
    requires n < |next|
    ensures Upserts(prev, next, n + 1)
         == if InPlace(prev, next, n) then Upserts(prev, next, n) else Upserts(prev, next, n) + [PutOf(prev, next, n)]
  {
    assert InPlace(prev, next, n) ==> Upserts(prev, next, n) + [] == Upserts(prev, next, n);
  }

  /** `list` is the client's list once the first `n` changes' upserts are applied. */
  ghost predicate Reached(prev: seq<Entry>, next: seq<Entry>, list: seq<Entry>, n: nat)
    requires n <= |next|
  {
    && ApplyUpserts(Kept(prev, next), Upserts(prev, next, n)) == Some(list)
    && Placed(prev, next, list, n)
    && (InPlaceOrdered(prev, next) ==> Sorted(prev, next, list, n))
  }

  /** One more change, applied to the client's list. */
  lemma ReachedNext(prev: seq<Entry>, next: seq<Entry>, list: seq<Entry>, n: nat) returns (after: seq<Entry>)
    requires Unique(prev) && Unique(next) && n < |next| && Reached(prev, next, list, n)
    ensures Reached(prev, next, after, n + 1)
  {
    UpsertsNext(prev, next, n);
    if InPlace(prev, next, n) {
      IxOf(next, n, next[n].id);
      StaysShared(prev, next, next[n].id);
      PlacedSkip(prev, next, list, n);
      after := list;
      if InPlaceOrdered(prev, next) {
        forall b | n < b < |next| && InPlace(prev, next, b) ensures Ix(list, next[n].id) < Ix(list, next[b].id) {
          StaysBefore(prev, next, list, n, b);
        }
        SortedSkip(prev, next, list, n);
      }
    } else {
      PlacedPut(prev, next, list, n);
      UpsertsSnoc(Kept(prev, next), Upserts(prev, next, n), PutOf(prev, next, n), list);
      after := ApplyUpsert(list, PutOf(prev, next, n)).value;
      if InPlaceOrdered(prev, next) {
        SortedPut(prev, next, list, n);
      }
    }
  }

  ghost predicate ReachedSome(prev: seq<Entry>, next: seq<Entry>, n: nat) {
    n <= |next| && exists list :: Reached(prev, next, list, n)
  }

  lemma ReachedSomeNext(prev: seq<Entry>, next: seq<Entry>, n: nat)
    requires Unique(prev) && Unique(next) && n < |next| && ReachedSome(prev, next, n)
    ensures ReachedSome(prev, next, n + 1)
  {
    var before :| Reached(prev, next, before, n);
    var list := ReachedNext(prev, next, before, n);
  }

  /** All the upserts: they never fail, and what they lead to. */
  lemma AllUpserts(prev: seq<Entry>, next: seq<Entry>)
    requires Unique(prev) && Unique(next) && ReachedSome(prev, next, 0)
    ensures ReachedSome(prev, next, |next|)
  {
    for n := 0 to |next|
      invariant exists m :: m == n && ReachedSome(prev, next, m)
    {
      ReachedSomeNext(prev, next, n);
    }
  }

  lemma ReachedStart(prev: seq<Entry>, next: seq<Entry>)
    requires Unique(prev) && Unique(next)
    ensures Reached(prev, next, Kept(prev, next), 0)
  {
    PlacedStart(prev, next);
  }

  lemma ReachedEnd(prev: seq<Entry>, next: seq<Entry>) returns (list: seq<Entry>)
    requires Unique(prev) && Unique(next)
    ensures Reached(prev, next, list, |next|)
  {
    assert ReachedSome(prev, next, 0) by {
      ReachedStart(prev, next);
    }
    AllUpserts(prev, next);
    list :| Reached(prev, next, list, |next|);
  }

  // ── the list once all upserts are applied ─────────────────────────────────

  ghost function IdSet(list: seq<Entry>): set<string> {
    set i | 0 <= i < |list| :: list[i].id
  }

  lemma {:induction false} IdSetSize(list: seq<Entry>)
    requires Unique(list)
    ensures |IdSet(list)| == |list|
    decreases |list|
  {
    if list == [] {
    } else {
      var n := |list| - 1;
      var front := list[..n];
      IdSetSize(front);
      assert list[n].id !in IdSet(front);
      assert IdSet(list) == IdSet(front) + {list[n].id} by {
        assert forall i :: 0 <= i < n ==> list[i] == front[i];
      }
    }
  }

  lemma SameIdsSameLength(a: seq<Entry>, b: seq<Entry>)
    requires Unique(a) && Unique(b) && forall x :: Has(a, x) <==> Has(b, x)
    ensures |a| == |b|
  {
    IdSetSize(a);
    IdSetSize(b);
    forall x ensures x in IdSet(a) <==> x in IdSet(b) {
      assert x in IdSet(a) <==> Has(a, x);
      assert x in IdSet(b) <==> Has(b, x);
    }
    assert IdSet(a) == IdSet(b);
  }

  /** Positions that strictly increase through a list of the same length are its own. */
  lemma {:induction false} IncreasingIsIdentity(list: seq<Entry>, next: seq<Entry>, k: nat)
    requires |list| == |next| && k < |next|
    requires forall i :: 0 <= i < |next| ==> Has(list, next[i].id)
    requires forall a, b :: 0 <= a < b < |next| ==> Ix(list, next[a].id) < Ix(list, next[b].id)
    ensures Ix(list, next[k].id) == k
  {
    Climbs(list, next, 0, k);
    Climbs(list, next, k, |next| - 1);
  }

  lemma {:induction false} Climbs(list: seq<Entry>, next: seq<Entry>, a: nat, b: nat)
    requires a <= b < |next|
    requires forall i, j :: 0 <= i < j < |next| ==> Ix(list, next[i].id) < Ix(list, next[j].id)
    ensures Ix(list, next[b].id) - Ix(list, next[a].id) >= b - a
    decreases b - a
  {
    if a < b {
      Climbs(list, next, a, b - 1);
    }
  }

  lemma PlacedLength(prev: seq<Entry>, next: seq<Entry>, list: seq<Entry>)
    requires Unique(next) && Placed(prev, next, list, |next|)
    ensures |list| == |next| && forall i :: 0 <= i < |next| ==> Has(list, next[i].id)
  {
    SameIdsSameLength(list, next);
    forall i | 0 <= i < |next| ensures Has(list, next[i].id) {
      assert Has(next, next[i].id);
    }
  }

  // ── the appends ───────────────────────────────────────────────────────────

  ghost predicate GrowsIn(prev: seq<Entry>, next: seq<Entry>, n: nat, x: string)
    requires n <= |next|
  {
    0 <= Ix(next, x) < n && ChangeAt(prev, next, Ix(next, x)).Grow?
  }

  ghost function Growth(prev: seq<Entry>, next: seq<Entry>, i: nat): Option<Entry>
    requires i < |next| && ChangeAt(prev, next, i).Grow? && Has(prev, next[i].id)
  {
    AppendTo(prev[Ix(prev, next[i].id)], ChangeAt(prev, next, i).a)
  }

  /** Entry `old` of the list, once the first `n` changes' appends are applied. */
  ghost predicate GrownFrom(prev: seq<Entry>, next: seq<Entry>, n: nat, was: Entry, now: Entry)
    requires n <= |next|
  {
    && now.id == was.id
    && if GrowsIn(prev, next, n, was.id) then Has(prev, was.id) && Growth(prev, next, Ix(next, was.id)) == Some(now)
       else now == was
  }

  /** `grown` is `list` with the first `n` changes' appends applied. */
  ghost predicate Grown(prev: seq<Entry>, next: seq<Entry>, list: seq<Entry>, grown: seq<Entry>, n: nat)
    requires n <= |next|
  {
    |grown| == |list| && forall k {:trigger GrownFrom(prev, next, n, list[k], grown[k])} :: 0 <= k < |list| ==>
      GrownFrom(prev, next, n, list[k], grown[k])
  }

  lemma AppendsNext(prev: seq<Entry>, next: seq<Entry>, n: nat)
    requires n < |next|
    ensures Appends(prev, next, n + 1)
         == if ChangeAt(prev, next, n).Grow? then Appends(prev, next, n) +
           [ChangeAt(prev, next, n).a] else Appends(prev, next, n)
  {
    assert Appends(prev, next, n) + [] == Appends(prev, next, n);
  }

  /** Every growing change finds its old entry in the list. */
  ghost predicate Targeted(prev: seq<Entry>, next: seq<Entry>, list: seq<Entry>) {
    && Unique(prev) && Unique(next) && Unique(list)
    && forall i :: 0 <= i < |next| && ChangeAt(prev, next, i).Grow? ==>
         Has(list, next[i].id) && Has(prev, next[i].id) && list[Ix(list, next[i].id)] == prev[Ix(prev, next[i].id)]
  }

  /** An entry that was not upserted is still the old one. */
  lemma PlacedOld(prev: seq<Entry>, next: seq<Entry>, list: seq<Entry>, i: nat)
    requires Unique(next) && Placed(prev, next, list, |next|) && i < |next| && !ChangeAt(prev, next, i).Put?
    ensures Has(list, next[i].id) && Has(prev, next[i].id) && list[Ix(list, next[i].id)] == prev[Ix(prev, next[i].id)]
  {
    IxOf(next, i, next[i].id);
    assert Has(list, next[i].id);
  }

  lemma PlacedTargets(prev: seq<Entry>, next: seq<Entry>, list: seq<Entry>)
    requires Unique(prev) && Unique(next) && Placed(prev, next, list, |next|)
    ensures Targeted(prev, next, list)
  {
    forall i | 0 <= i < |next| && ChangeAt(prev, next, i).Grow?
      ensures Has(list, next[i].id) && Has(prev, next[i].id) && list[Ix(list, next[i].id)] == prev[Ix(prev, next[i].id)]
    {
      PlacedOld(prev, next, list, i);
    }
  }

  /** What a growing change says about its entry. */
  lemma GrowTarget(prev: seq<Entry>, next: seq<Entry>, n: nat)
    requires Unique(prev) && Unique(next) && n < |next| && ChangeAt(prev, next, n).Grow?
    ensures var a, x := ChangeAt(prev, next, n).a, next[n].id;
      a.entry == x && Ix(next, x) == n && Has(prev, x) && TryAppend(prev[Ix(prev, x)], next[n]) == Some(a)
  {
    var x := next[n].id;
    IxOf(next, n, x);
    LastIsFirst(prev, x);
    var p := prev[Ix(prev, x)];
    var k :| GrowsAt(p, next[n], k) && TryAppend(p, next[n]).value == GrownAt(p.parts[k], next[n].parts[k], x);
  }

  lemma GrownIx(prev: seq<Entry>, next: seq<Entry>, list: seq<Entry>, grown: seq<Entry>, n: nat, x: string)
    requires Unique(list) && n <= |next| && Grown(prev, next, list, grown, n)
    ensures Ix(grown, x) == Ix(list, x)
  {
    forall k | 0 <= k < |list| ensures grown[k].id == list[k].id {
      assert GrownFrom(prev, next, n, list[k], grown[k]);
    }
    if Ix(list, x) >= 0 {
      IxOf(grown, Ix(list, x), x);
    }
  }

  /** The list's entry that a growing change is about is still the old one. */
  lemma GrowFinds(prev: seq<Entry>, next: seq<Entry>, list: seq<Entry>, grown: seq<Entry>, n: nat)
    requires n < |next| && Targeted(prev, next, list)
    requires Grown(prev, next, list, grown, n) && ChangeAt(prev, next, n).Grow?
    ensures var x := next[n].id;
      && Has(prev, x) && Ix(next, x) == n && ChangeAt(prev, next, n).a.entry == x
      && Has(list, x) && Ix(grown, x) == Ix(list, x) && grown[Ix(list, x)] == prev[Ix(prev, x)]
  {
    GrowTarget(prev, next, n);
    var x := next[n].id;
    GrownIx(prev, next, list, grown, n, x);
    assert GrownFrom(prev, next, n, list[Ix(list, x)], grown[Ix(list, x)]);
  }

  lemma GrownNextAt(prev: seq<Entry>, next: seq<Entry>, list: seq<Entry>, grown: seq<Entry>, n: nat, e: Entry, j: nat)
    requires n < |next| && Unique(next) && Unique(list) && Grown(prev, next, list, grown, n) &&
      ChangeAt(prev, next, n).Grow?
    requires Ix(next, next[n].id) == n && Has(list, next[n].id) && Has(prev, next[n].id)
    requires Growth(prev, next, n) == Some(e) && e.id == next[n].id && j < |list|
    ensures GrownFrom(prev, next, n + 1, list[j], grown[Ix(list, next[n].id) := e][j])
  {
    assert GrownFrom(prev, next, n, list[j], grown[j]);
    if j != Ix(list, next[n].id) {
      assert list[j].id != list[Ix(list, next[n].id)].id;
    }
  }

  lemma GrownNext(prev: seq<Entry>, next: seq<Entry>, list: seq<Entry>, grown: seq<Entry>, n: nat)
    requires n < |next| && Targeted(prev, next, list)
    requires Grown(prev, next, list, grown, n) && ChangeAt(prev, next, n).Grow?
    ensures var a := ChangeAt(prev, next, n).a;
      Has(prev, next[n].id) &&
      (ApplyAppend(grown, a).None? ==> Growth(prev, next, n).None?) &&
      (ApplyAppend(grown, a).Some? ==> Grown(prev, next, list, ApplyAppend(grown, a).value, n + 1))
  {
    GrowFinds(prev, next, list, grown, n);
    if Growth(prev, next, n).Some? {
      var e := Growth(prev, next, n).value;
      forall j | 0 <= j < |list| ensures GrownFrom(prev, next, n + 1, list[j], grown[Ix(list, next[n].id) := e][j]) {
        GrownNextAt(prev, next, list, grown, n, e, j);
      }
    }
  }

  lemma GrownSkip(prev: seq<Entry>, next: seq<Entry>, list: seq<Entry>, grown: seq<Entry>, n: nat)
    requires Unique(next) && n < |next| && Grown(prev, next, list, grown, n) && !ChangeAt(prev, next, n).Grow?
    ensures Grown(prev, next, list, grown, n + 1)
  {
    IxOf(next, n, next[n].id);
    forall k | 0 <= k < |list| ensures GrownFrom(prev, next, n + 1, list[k], grown[k]) {
      assert GrownFrom(prev, next, n, list[k], grown[k]);
    }
  }

  ghost predicate CannotGrow(prev: seq<Entry>, next: seq<Entry>, i: nat) {
    i < |next| && ChangeAt(prev, next, i).Grow? && Has(prev, next[i].id) && Growth(prev, next, i).None?
  }

  ghost predicate AppendsDone(prev: seq<Entry>, next: seq<Entry>, list: seq<Entry>, n: nat)
    requires n <= |next|
  {
    match ApplyAppends(list, Appends(prev, next, n))
    case Some(grown) => Grown(prev, next, list, grown, n)
    case None => exists i :: CannotGrow(prev, next, i)
  }

  lemma AppendsStep(prev: seq<Entry>, next: seq<Entry>, list: seq<Entry>, n: nat)
    requires n < |next| && Targeted(prev, next, list)
    requires AppendsDone(prev, next, list, n)
    ensures AppendsDone(prev, next, list, n + 1)
  {
    AppendsNext(prev, next, n);
    var before := ApplyAppends(list, Appends(prev, next, n));
    if ChangeAt(prev, next, n).Grow? {
      AppendsSnoc(list, Appends(prev, next, n), ChangeAt(prev, next, n).a);
      if before.Some? {
        GrownNext(prev, next, list, before.value, n);
        if ApplyAppend(before.value, ChangeAt(prev, next, n).a).None? {
          assert CannotGrow(prev, next, n);
        }
      }
    } else if before.Some? {
      GrownSkip(prev, next, list, before.value, n);
    }
  }

  lemma AppendsStart(prev: seq<Entry>, next: seq<Entry>, list: seq<Entry>)
    ensures AppendsDone(prev, next, list, 0)
  {
    assert Appends(prev, next, 0) == [];
  }

  /** All the appends: they fail only where one cannot grow its entry. */
  lemma AllAppends(prev: seq<Entry>, next: seq<Entry>, list: seq<Entry>)
    requires Targeted(prev, next, list)
    ensures AppendsDone(prev, next, list, |next|)
  {
    AppendsStart(prev, next, list);
    for n := 0 to |next|
      invariant AppendsDone(prev, next, list, n)
    {
      AppendsStep(prev, next, list, n);
    }
  }

  // ── the theorem ───────────────────────────────────────────────────────────

  lemma GrowthIffFaithful(prev: seq<Entry>, next: seq<Entry>, i: nat)
    requires Unique(prev) && Unique(next) && i < |next| && ChangeAt(prev, next, i).Grow?
    ensures Has(prev, next[i].id)
    ensures Growth(prev, next, i) == Some(next[i]) <==> Faithful(prev[Ix(prev, next[i].id)], next[i])
  {
    GrowTarget(prev, next, i);
    AppendIffFaithful(prev[Ix(prev, next[i].id)], next[i]);
  }

  lemma FaithfulGrows(prev: seq<Entry>, next: seq<Entry>, list: seq<Entry>) returns (grown: seq<Entry>)
    requires Targeted(prev, next, list) && AppendsFaithful(prev, next)
    ensures ApplyAppends(list, Appends(prev, next, |next|)) == Some(grown) && Grown(prev, next, list, grown, |next|)
    ensures forall i: nat :: i < |next| && ChangeAt(prev, next, i).Grow? ==>
      Has(prev, next[i].id) && Growth(prev, next, i) == Some(next[i])
  {
    forall i: nat | i < |next| && ChangeAt(prev, next, i).Grow?
      ensures Has(prev, next[i].id) && Growth(prev, next, i) == Some(next[i])
    {
      GrowthIffFaithful(prev, next, i);
    }
    assert forall i :: !CannotGrow(prev, next, i);
    AllAppends(prev, next, list);
    grown := ApplyAppends(list, Appends(prev, next, |next|)).value;
  }

  /** With the order kept, the entry at each position is the new one. */
  lemma ExactAt(prev: seq<Entry>, next: seq<Entry>, list: seq<Entry>, grown: seq<Entry>, k: nat)
    requires Unique(prev) && Unique(next) && Placed(prev, next, list, |next|) && k < |next| == |list|
    requires Ix(list, next[k].id) == k && Grown(prev, next, list, grown, |next|)
    requires ChangeAt(prev, next, k).Grow? ==> Has(prev, next[k].id) && Growth(prev, next, k) == Some(next[k])
    ensures grown[k] == next[k]
  {
    IxOf(next, k, next[k].id);
    assert GrownFrom(prev, next, |next|, list[k], grown[k]);
    if ChangeAt(prev, next, k).Put? {
      assert Upserted(prev, next, |next|, next[k].id) && Has(list, next[k].id);
    } else {
      PlacedOld(prev, next, list, k);
      LastIsFirst(prev, next[k].id);
    }
  }

  lemma ExactIf(prev: seq<Entry>, next: seq<Entry>, list: seq<Entry>)
    requires Unique(prev) && Unique(next) && Placed(prev, next, list, |next|) && Sorted(prev, next, list, |next|)
    requires InPlaceOrdered(prev, next) && AppendsFaithful(prev, next)
    ensures ApplyAppends(list, Appends(prev, next, |next|)) == Some(next)
  {
    PlacedLength(prev, next, list);
    PlacedTargets(prev, next, list);
    var grown := FaithfulGrows(prev, next, list);
    forall k | 0 <= k < |next| ensures grown[k] == next[k] {
      IncreasingIsIdentity(list, next, k);
      ExactAt(prev, next, list, grown, k);
    }
    assert grown == next;
  }

  /** What an exact application leaves at each position. */
  lemma ExactPositions(prev: seq<Entry>, next: seq<Entry>, list: seq<Entry>)
    requires Unique(prev) && Unique(next) && Placed(prev, next, list, |next|)
    requires ApplyAppends(list, Appends(prev, next, |next|)) == Some(next)
    ensures |list| == |next| && Grown(prev, next, list, next, |next|)
    ensures forall k :: 0 <= k < |next| ==> list[k].id == next[k].id && Ix(list, next[k].id) == k
  {
    PlacedLength(prev, next, list);
    PlacedTargets(prev, next, list);
    AllAppends(prev, next, list);
    forall k | 0 <= k < |next| ensures list[k].id == next[k].id && Ix(list, next[k].id) == k {
      assert GrownFrom(prev, next, |next|, list[k], next[k]);
      IxOf(list, k, next[k].id);
    }
  }

  lemma ExactInOrder(prev: seq<Entry>, next: seq<Entry>, list: seq<Entry>, i: nat, j: nat)
    requires Unique(next) && Placed(prev, next, list, |next|) && i < j < |next|
    requires InPlace(prev, next, i) && InPlace(prev, next, j)
    requires Ix(list, next[i].id) == i && Ix(list, next[j].id) == j
    ensures Ix(prev, next[i].id) < Ix(prev, next[j].id)
  {
    IxOf(next, i, next[i].id);
    IxOf(next, j, next[j].id);
    assert Stays(prev, next, next[i].id) && Stays(prev, next, next[j].id);
  }

  lemma ExactFaithful(prev: seq<Entry>, next: seq<Entry>, list: seq<Entry>, i: nat)
    requires Unique(prev) && Unique(next) && Grown(prev, next, list, next, |next|) && i < |next| == |list|
    requires list[i].id == next[i].id && ChangeAt(prev, next, i).Grow?
    ensures Has(prev, next[i].id) && Faithful(prev[Ix(prev, next[i].id)], next[i])
  {
    IxOf(next, i, next[i].id);
    assert GrownFrom(prev, next, |next|, list[i], next[i]);
    GrowthIffFaithful(prev, next, i);
  }

  lemma ExactOnlyIf(prev: seq<Entry>, next: seq<Entry>, list: seq<Entry>)
    requires Unique(prev) && Unique(next) && Placed(prev, next, list, |next|)
    requires ApplyAppends(list, Appends(prev, next, |next|)) == Some(next)
    ensures InPlaceOrdered(prev, next) && AppendsFaithful(prev, next)
  {
    ExactPositions(prev, next, list);
    forall i, j | 0 <= i < j < |next| && InPlace(prev, next, i) && InPlace(prev, next, j)
      ensures Ix(prev, next[i].id) < Ix(prev, next[j].id)
    {
      ExactInOrder(prev, next, list, i, j);
    }
    forall i | 0 <= i < |next| && ChangeAt(prev, next, i).Grow? ensures Faithful(prev[Ix(prev, next[i].id)], next[i]) {
      ExactFaithful(prev, next, list, i);
    }
  }

  /** Main result: applying a diff gives back the new transcript if and only
      if it was sent as a reset, or the entries left in place keep their order
      and every append is faithful. */
  lemma DiffApplyExactIff(prev: seq<Entry>, next: seq<Entry>)
    requires Unique(prev) && Unique(next)
    ensures ApplyFrame(prev, DiffOf(prev, next)) == Some(next) <==>
      DiffOf(prev, next).Reset? || (InPlaceOrdered(prev, next) && AppendsFaithful(prev, next))
  {
    var list := ReachedEnd(prev, next);
    if DiffOf(prev, next).Delta? {
      if InPlaceOrdered(prev, next) && AppendsFaithful(prev, next) {
        ExactIf(prev, next, list);
      }
      if ApplyFrame(prev, DiffOf(prev, next)) == Some(next) {
        ExactOnlyIf(prev, next, list);
      }
    }
  }

  /** The shared entries keep their relative order, as a plain list edit does. */
  ghost predicate SharedOrdered(prev: seq<Entry>, next: seq<Entry>) {
    forall i, j :: 0 <= i < j < |next| && Has(prev, next[i].id) && Has(prev, next[j].id) ==>
      Ix(prev, next[i].id) < Ix(prev, next[j].id)
  }

  lemma SharedOrderSuffices(prev: seq<Entry>, next: seq<Entry>)
    requires Unique(prev) && Unique(next) && SharedOrdered(prev, next) && AppendsFaithful(prev, next)
    ensures ApplyFrame(prev, DiffOf(prev, next)) == Some(next)
  {
    forall i | 0 <= i < |next| && InPlace(prev, next, i) ensures Has(prev, next[i].id) {
      LastIsFirst(prev, next[i].id);
    }
    DiffApplyExactIff(prev, next);
  }

  /** Swapping two pairs is a reordering the diff gets wrong. */
  lemma SwappedPairsNotExact(a: Entry, b: Entry, c: Entry, d: Entry)
    requires Unique([a, b, c, d])
    ensures ApplyFrame([a, b, c, d], DiffOf([a, b, c, d], [c, d, a, b])) != Some([c, d, a, b])
  {
    var prev, next := [a, b, c, d], [c, d, a, b];
    assert prev[0] == a && prev[1] == b && prev[2] == c && prev[3] == d;
    assert forall i, j :: 0 <= i < j < 4 ==> next[i].id != next[j].id;
    IxOf(prev, 1, b.id);
    IxOf(prev, 3, d.id);
    LastIsFirst(prev, b.id);
    LastIsFirst(prev, d.id);
    assert InPlace(prev, next, 1) && InPlace(prev, next, 3);
    DiffApplyExactIff(prev, next);
  }

  /** Growing a text together with a change of the duration, origin or provider
      turn is sent as an append alone: the other change never arrives. */
  lemma GrowthHidesOtherChange(p: Entry, n: Entry, k: int)
    requires GrowsAt(p, n, k)
    requires p.durationMs != n.durationMs || p.originChatId != n.originChatId || p.providerTurn != n.providerTurn
    ensures ApplyFrame([p], DiffOf([p], [n])) != Some([n])
  {
    var prev, next := [p], [n];
    assert prev[0] == p && next[0] == n && prev[..0] == [];
    IxOf(prev, 0, n.id);
    LastIsFirst(prev, n.id);
    assert ChangeAt(prev, next, 0).Grow?;
    assert Upserts(prev, next, 1) == Upserts(prev, next, 0) + [];
    DiffApplyExactIff(prev, next);
  }
}
