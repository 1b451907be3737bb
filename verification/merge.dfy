/**
 * `fetchOldStores` and `fetchStores`: the backup snapshot is cut down to the
 * rows updated since the start of the current UTC+8 day, then backup rows
 * followed by live rows are folded into an insertion-ordered map keyed by
 * institution id. A later record replaces every field but `amount`, which
 * keeps the larger of the new value and the stored one.
 */
module Merge {
  import opened Options
  import opened Numbers
  import opened Batch
  import opened Stores

  /* ---------- positions of ids ---------- */

  /** The ids of a record sequence, position by position. */
  function Ids(rs: seq<Store>): (ids: seq<string>)
    ensures |ids| == |rs|
    ensures forall i :: 0 <= i < |rs| ==> ids[i] == rs[i].id
  {
    seq(|rs|, i requires 0 <= i < |rs| => rs[i].id)
  }

  lemma IdsAppend(a: seq<Store>, b: seq<Store>)
    ensures Ids(a + b) == Ids(a) + Ids(b)
  {
  }

  /** The position of the first occurrence of `k`. */
  function FirstIndex(xs: seq<string>, k: string): (r: nat)
    requires k in xs
    ensures r < |xs| && xs[r] == k
    ensures forall j :: 0 <= j < r ==> xs[j] != k
  {
    if xs[0] == k then 0 else 1 + FirstIndex(xs[1..], k)
  }

  /** The position of the last occurrence of `k`. */
  function LastIndex(xs: seq<string>, k: string): (r: nat)
    requires k in xs
    ensures r < |xs| && xs[r] == k
    ensures forall j :: r < j < |xs| ==> xs[j] != k
  {
    if xs[|xs| - 1] == k then |xs| - 1 else LastIndex(xs[..|xs| - 1], k)
  }

  lemma FirstIndexIs(xs: seq<string>, k: string, i: nat)
    requires i < |xs| && xs[i] == k
    requires forall j :: 0 <= j < i ==> xs[j] != k
    ensures FirstIndex(xs, k) == i
  {
  }

  lemma LastIndexIs(xs: seq<string>, k: string, i: nat)
    requires i < |xs| && xs[i] == k
    requires forall j :: i < j < |xs| ==> xs[j] != k
    ensures LastIndex(xs, k) == i
  {
  }

  /** Appending an element does not move the first occurrence of anything already present. */
  lemma FirstIndexSnoc(xs: seq<string>, y: string, k: string)
    requires k in xs
    ensures FirstIndex(xs + [y], k) == FirstIndex(xs, k)
    ensures y !in xs ==> FirstIndex(xs + [y], y) == |xs|
  {
    var ys := xs + [y];
    assert forall t :: 0 <= t < |xs| ==> ys[t] == xs[t];
    FirstIndexIs(ys, k, FirstIndex(xs, k));
    if y !in xs {
      FirstIndexIs(ys, y, |xs|);
    }
  }

  predicate NoDup(xs: seq<string>) {
    forall i, j :: 0 <= i < j < |xs| ==> xs[i] != xs[j]
  }

  /** `out` lists ids in the order of their first occurrence in `ids`. */
  predicate FirstOccurrenceOrder(out: seq<string>, ids: seq<string>) {
    forall i, j :: 0 <= i < j < |out| ==>
      out[i] in ids && out[j] in ids && FirstIndex(ids, out[i]) < FirstIndex(ids, out[j])
  }

  /* ---------- freshness filter (fetchOldStores) ---------- */

  const SecondsPerDay: int := 86400
  /** The feed's fixed local offset, UTC+8, in seconds. */
  const UtcOffset: int := 28800

  /** Midnight of the current day in UTC+8 (build.js:55), in Unix seconds, for the instant `now`. */
  function StartOfDay(now: int): (r: int)
    ensures r <= now < r + SecondsPerDay
    ensures (r + UtcOffset) % SecondsPerDay == 0
  {
    now - (now + UtcOffset) % SecondsPerDay
  }

  function FreshRule(dayStart: int): Store -> Option<Store> {
    (s: Store) => if s.updatedAt > dayStart then Some(s) else None
  }

  /** The backup rows updated strictly after `dayStart`, in their original order. */
  function Fresh(rows: seq<Store>, dayStart: int): (r: seq<Store>)
    ensures |r| <= |rows|
    ensures forall s :: s in r <==> s in rows && s.updatedAt > dayStart
  {
    var r := FilterMap(FreshRule(dayStart), rows);
    assert forall s :: s in r <==> s in rows && s.updatedAt > dayStart by {
      forall s ensures s in r <==> s in rows && s.updatedAt > dayStart {
        FilterMapMembers(FreshRule(dayStart), rows, s);
      }
    }
    r
  }

  /**
   * A backup row survives exactly when it is newer than the day start, and
   * the survivors are the rows at increasing positions of the snapshot.
   */
  lemma FreshSpec(rows: seq<Store>, dayStart: int)
    ensures forall s :: s in Fresh(rows, dayStart) <==> s in rows && s.updatedAt > dayStart
    ensures |Fresh(rows, dayStart)| == |AcceptedIndices(FreshRule(dayStart), rows)|
    ensures forall j :: 0 <= j < |Fresh(rows, dayStart)| ==>
              Fresh(rows, dayStart)[j] == rows[AcceptedIndices(FreshRule(dayStart), rows)[j]]
  {
    var f := FreshRule(dayStart);
    FilterMapSpec(f, rows);
    forall s ensures s in Fresh(rows, dayStart) <==> s in rows && s.updatedAt > dayStart {
      FilterMapMembers(f, rows, s);
    }
  }

  /* ---------- the merge fold (fetchStores) ---------- */

  /** The `Map` being built: its entries and the order keys were first inserted. */
  datatype Merged = Merged(byId: map<string, Store>, order: seq<string>)

  predicate WellFormed(m: Merged) {
    && NoDup(m.order)
    && (forall k :: k in m.order ==> k in m.byId)
    && (forall k :: k in m.byId ==> k in m.order)
    && (forall k :: k in m.byId ==> m.byId[k].id == k)
  }

  /**
   * One iteration of the merge loop: the stored record, if any, has its
   * amount read with `toSafeInteger` (absent reads as 0); the new record
   * replaces it with the larger amount. A new key goes to the end of the
   * insertion order; an existing key keeps its place.
   */
  function Absorb(acc: Merged, s: Store): Merged {
    var known := s.id in acc.byId;
    var prior := if known then ToSafeInteger(acc.byId[s.id].amount) else 0;
    Merged(acc.byId[s.id := s.(amount := Max(s.amount, prior))],
           if known then acc.order else acc.order + [s.id])
  }

  /**
   * One absorbed record touches only its own id: every other entry stays,
   * the id's entry takes the record's fields with the larger of the
   * record's amount and the clamped prior (0 for a new id), a new id is
   * appended to the order, and a well-formed map stays well formed.
   */
  lemma AbsorbStep(acc: Merged, s: Store)
    ensures var r := Absorb(acc, s);
      && r.byId.Keys == acc.byId.Keys + {s.id}
      && (forall k :: k in acc.byId && k != s.id ==> r.byId[k] == acc.byId[k])
      && SameExceptAmount(r.byId[s.id], s) && r.byId[s.id].amount >= s.amount
      && (s.id in acc.byId ==> r.byId[s.id].amount >= ToSafeInteger(acc.byId[s.id].amount))
      && (s.id !in acc.byId ==> r.byId[s.id].amount >= 0)
      && (r.byId[s.id].amount == s.amount
          || r.byId[s.id].amount == (if s.id in acc.byId then ToSafeInteger(acc.byId[s.id].amount) else 0))
      && r.order == (if s.id in acc.byId then acc.order else acc.order + [s.id])
    ensures WellFormed(acc) ==> WellFormed(Absorb(acc, s))
  {
  }

  /** The merge loop over `rs`, from an empty map. */
  function MergeAll(rs: seq<Store>): (m: Merged)
    ensures WellFormed(m)
    ensures forall k :: k in m.byId <==> k in Ids(rs)
  {
    if rs == [] then Merged(map[], [])
    else
      var prev := MergeAll(rs[..|rs| - 1]);
      var m := Absorb(prev, rs[|rs| - 1]);
      assert Ids(rs) == Ids(rs[..|rs| - 1]) + [rs[|rs| - 1].id];
      m
  }

  /** The map's values listed in insertion order (build.js:117). */
  function Values(m: Merged): (r: seq<Store>)
    requires WellFormed(m)
    ensures |r| == |m.order|
    ensures Ids(r) == m.order
    ensures forall i :: 0 <= i < |r| ==> r[i] == m.byId[m.order[i]]
  {
    seq(|m.order|, i requires 0 <= i < |m.order| => m.byId[m.order[i]])
  }

  /** `a` and `b` agree on every field except possibly `amount`. */
  predicate SameExceptAmount(a: Store, b: Store) {
    a.(amount := b.amount) == b
  }

  predicate SafeAmounts(rs: seq<Store>) {
    forall i :: 0 <= i < |rs| ==> IsSafeInteger(rs[i].amount)
  }

  /** `a` is the largest of 0 and every amount `rs` carries for `k`. */
  predicate IsMaxAmount(rs: seq<Store>, k: string, a: int) {
    && a >= 0
    && (forall i :: 0 <= i < |rs| && rs[i].id == k ==> rs[i].amount <= a)
    && (a == 0 || exists i :: 0 <= i < |rs| && rs[i].id == k && rs[i].amount == a)
  }

  /** One step of `MergeOrder`: an append of a new id, or no change, keeps the order. */
  lemma OrderStep(order: seq<string>, ids: seq<string>, y: string, order': seq<string>)
    requires FirstOccurrenceOrder(order, ids)
    requires forall t :: 0 <= t < |order| ==> order[t] in ids
    requires order' == order || (order' == order + [y] && y !in ids)
    ensures FirstOccurrenceOrder(order', ids + [y])
  {
    var n := |order|;
    forall i, j | 0 <= i < j < |order'|
      ensures order'[i] in ids + [y] && order'[j] in ids + [y]
      ensures FirstIndex(ids + [y], order'[i]) < FirstIndex(ids + [y], order'[j])
    {
      FirstIndexSnoc(ids, y, order[i]);
      if j < n {
        FirstIndexSnoc(ids, y, order[j]);
      }
    }
  }

  /** Keys are listed in the order of their first occurrence in the input. */
  lemma {:induction false} MergeOrder(rs: seq<Store>)
    ensures FirstOccurrenceOrder(MergeAll(rs).order, Ids(rs))
  {
    if rs != [] {
      var p, s := rs[..|rs| - 1], rs[|rs| - 1];
      MergeOrder(p);
      assert Ids(rs) == Ids(p) + [s.id];
      var prev := MergeAll(p);
      assert forall t :: 0 <= t < |prev.order| ==> prev.order[t] in prev.byId;
      OrderStep(prev.order, Ids(p), s.id, MergeAll(rs).order);
    }
  }

  /** Every field but `amount` comes from the last record with that id. */
  lemma {:induction false} MergeLastWins(rs: seq<Store>, k: string)
    requires k in Ids(rs)
    ensures k in MergeAll(rs).byId
    ensures SameExceptAmount(MergeAll(rs).byId[k], rs[LastIndex(Ids(rs), k)])
  {
    var p, s := rs[..|rs| - 1], rs[|rs| - 1];
    assert Ids(rs) == Ids(p) + [s.id];
    if s.id == k {
      LastIndexIs(Ids(rs), k, |rs| - 1);
    } else {
      assert k in Ids(p);
      MergeLastWins(p, k);
      LastIndexIs(Ids(rs), k, LastIndex(Ids(p), k));
    }
  }

  /** One step of `MergeAmountIsMax`: the running maximum absorbs one more record. */
  lemma MaxStep(p: seq<Store>, s: Store, k: string, known: bool, b: int, a: int)
    requires SafeAmounts(p)
    requires known ==> IsMaxAmount(p, k, b)
    requires !known ==> forall i :: 0 <= i < |p| ==> p[i].id != k
    requires s.id == k ==> a == Max(s.amount, if known then ToSafeInteger(b) else 0)
    requires s.id != k ==> known && a == b
    ensures IsMaxAmount(p + [s], k, a)
  {
    var rs := p + [s];
    assert forall i :: 0 <= i < |p| ==> rs[i] == p[i];
    if known && b != 0 {
      var i :| 0 <= i < |p| && p[i].id == k && p[i].amount == b;
      assert IsSafeInteger(b);
      assert rs[i].id == k && rs[i].amount == b;
    }
    if s.id == k && a == s.amount {
      assert rs[|p|].id == k && rs[|p|].amount == a;
    }
  }

  /**
   * With amounts in the safe-integer range, a key's amount is the largest of
   * 0 and every amount seen for it, whichever order they came in.
   */
  lemma {:induction false} MergeAmountIsMax(rs: seq<Store>, k: string)
    requires SafeAmounts(rs)
    requires k in Ids(rs)
    ensures k in MergeAll(rs).byId
    ensures IsMaxAmount(rs, k, MergeAll(rs).byId[k].amount)
  {
    var p, s := rs[..|rs| - 1], rs[|rs| - 1];
    assert rs == p + [s];
    assert Ids(rs) == Ids(p) + [s.id];
    var prev := MergeAll(p);
    var known := k in Ids(p);
    var b := if known then prev.byId[k].amount else 0;
    if known {
      MergeAmountIsMax(p, k);
    }
    MaxStep(p, s, k, known, b, MergeAll(rs).byId[k].amount);
  }

  /**
   * The value the fold carries forward for `k` as the next record's prior
   * amount: the largest of 0 and every amount `rs` holds for `k`, each
   * clamped into the safe range first.
   */
  function ClampedMax(rs: seq<Store>, k: string): (c: int)
    ensures 0 <= c <= MaxSafeInteger
  {
    if rs == [] then 0
    else
      var c := ClampedMax(rs[..|rs| - 1], k);
      if rs[|rs| - 1].id == k then Max(c, ToSafeInteger(rs[|rs| - 1].amount)) else c
  }

  /** `ClampedMax` is the largest of 0 and the clamped amounts `rs` carries for `k`. */
  lemma {:induction false} ClampedMaxSpec(rs: seq<Store>, k: string)
    ensures forall i :: 0 <= i < |rs| && rs[i].id == k ==> ToSafeInteger(rs[i].amount) <= ClampedMax(rs, k)
    ensures ClampedMax(rs, k) == 0 ||
      exists i :: 0 <= i < |rs| && rs[i].id == k && ToSafeInteger(rs[i].amount) == ClampedMax(rs, k)
  {
    if rs != [] {
      var p := rs[..|rs| - 1];
      ClampedMaxSpec(p, k);
      assert forall i :: 0 <= i < |p| ==> rs[i] == p[i];
    }
  }

  /** The running maximum of two parts taken together is the larger of the two. */
  lemma {:induction false} ClampedMaxAppend(a: seq<Store>, b: seq<Store>, k: string)
    ensures ClampedMax(a + b, k) == Max(ClampedMax(a, k), ClampedMax(b, k))
  {
    if b == [] {
      assert a + b == a;
    } else {
      var b', s := b[..|b| - 1], b[|b| - 1];
      ClampedMaxAppend(a, b', k);
      assert a + b == (a + b') + [s] && b == b' + [s];
      ClampedMaxSnoc(a + b', s, k);
      ClampedMaxSnoc(b', s, k);
    }
  }

  lemma ClampedMaxSnoc(p: seq<Store>, s: Store, k: string)
    ensures ClampedMax(p + [s], k) ==
      if s.id == k then Max(ClampedMax(p, k), ToSafeInteger(s.amount)) else ClampedMax(p, k)
  {
    assert (p + [s])[..|p|] == p;
  }

  /** One step of `MergeAmountClamped`, on plain numbers: `x` the new amount, `c` the carried maximum. */
  lemma ClampStep(x: int, c: int)
    requires 0 <= c <= MaxSafeInteger
    ensures Max(x, c) == Max(x, Max(c, ToSafeInteger(x)))
    ensures ToSafeInteger(Max(x, c)) == Max(c, ToSafeInteger(x))
  {
  }

  /**
   * For every integer amount: a key's merged amount is the larger of its
   * last record's amount and the clamped running maximum, and clamping the
   * merged amount gives that running maximum back.
   */
  lemma {:induction false} MergeAmountClamped(rs: seq<Store>, k: string)
    requires k in Ids(rs)
    ensures k in MergeAll(rs).byId
    ensures MergeAll(rs).byId[k].amount == Max(rs[LastIndex(Ids(rs), k)].amount, ClampedMax(rs, k))
    ensures ToSafeInteger(MergeAll(rs).byId[k].amount) == ClampedMax(rs, k)
  {
    var p, s := rs[..|rs| - 1], rs[|rs| - 1];
    assert Ids(rs) == Ids(p) + [s.id];
    var prev := MergeAll(p);
    if s.id == k {
      LastIndexIs(Ids(rs), k, |rs| - 1);
      var prior := if k in prev.byId then ToSafeInteger(prev.byId[k].amount) else 0;
      assert prior == ClampedMax(p, k) by {
        if k in Ids(p) {
          MergeAmountClamped(p, k);
        } else {
          ClampedMaxSpec(p, k);
        }
      }
      ClampStep(s.amount, prior);
    } else {
      assert k in Ids(p);
      MergeAmountClamped(p, k);
      LastIndexIs(Ids(rs), k, LastIndex(Ids(p), k));
      assert rs[LastIndex(Ids(p), k)] == p[LastIndex(Ids(p), k)];
    }
  }

  /** Records whose ids are all already present change amounts and fields, never the order. */
  lemma {:induction false} MergeKnownKeepsOrder(a: seq<Store>, b: seq<Store>)
    requires forall i :: 0 <= i < |b| ==> b[i].id in Ids(a)
    ensures MergeAll(a + b).order == MergeAll(a).order
  {
    if b == [] {
      assert a + b == a;
    } else {
      var b', s := b[..|b| - 1], b[|b| - 1];
      MergeKnownKeepsOrder(a, b');
      assert (a + b)[..|a + b| - 1] == a + b';
      IdsAppend(a, b');
      assert s.id in MergeAll(a + b').byId;
    }
  }

  /** The record a key ends with is the same after merging `rs` twice as after merging it once. */
  lemma DoubledRecord(rs: seq<Store>, k: string)
    requires k in Ids(rs)
    ensures k in MergeAll(rs + rs).byId
    ensures MergeAll(rs + rs).byId[k] == MergeAll(rs).byId[k]
  {
    var dd := rs + rs;
    var l := LastIndex(Ids(rs), k);
    LastOfDoubled(rs, k);
    var r2, r1 := MergeAll(dd).byId[k], MergeAll(rs).byId[k];
    assert SameExceptAmount(r2, rs[l]) && SameExceptAmount(r1, rs[l]) by {
      MergeLastWins(rs, k);
      MergeLastWins(dd, k);
    }
    assert r2.amount == r1.amount by {
      MergeAmountClamped(rs, k);
      MergeAmountClamped(dd, k);
      ClampedMaxAppend(rs, rs, k);
    }
    SameExceptAmountEqual(r2, r1, rs[l]);
  }

  lemma LastOfDoubled(rs: seq<Store>, k: string)
    requires k in Ids(rs)
    ensures k in Ids(rs + rs)
    ensures LastIndex(Ids(rs + rs), k) == |rs| + LastIndex(Ids(rs), k)
    ensures (rs + rs)[|rs| + LastIndex(Ids(rs), k)] == rs[LastIndex(Ids(rs), k)]
  {
    var dd := rs + rs;
    assert forall i :: 0 <= i < |rs| ==> dd[i] == rs[i] && dd[|rs| + i] == rs[i];
    IdsAppend(rs, rs);
    LastIndexDoubled(Ids(rs), k);
  }

  lemma LastIndexDoubled(xs: seq<string>, k: string)
    requires k in xs
    ensures k in xs + xs
    ensures LastIndex(xs + xs, k) == |xs| + LastIndex(xs, k)
  {
    var ys := xs + xs;
    assert forall j :: |xs| <= j < |ys| ==> ys[j] == xs[j - |xs|];
    LastIndexIs(ys, k, |xs| + LastIndex(xs, k));
  }

  lemma SameExceptAmountEqual(a: Store, b: Store, c: Store)
    requires SameExceptAmount(a, c) && SameExceptAmount(b, c) && a.amount == b.amount
    ensures a == b
  {
  }

  /**
   * Merging a collection with itself changes nothing: same keys, same
   * order, same fields and the same amounts.
   */
  lemma MergeSelfIdempotent(rs: seq<Store>)
    ensures MergeAll(rs + rs) == MergeAll(rs)
  {
    var m2, m1 := MergeAll(rs + rs), MergeAll(rs);
    assert m2.order == m1.order by {
      IdsAppend(rs, rs);
      MergeKnownKeepsOrder(rs, rs);
    }
    assert forall k :: k in m2.byId <==> k in m1.byId by {
      IdsAppend(rs, rs);
    }
    forall k | k in m1.byId
      ensures m2.byId[k] == m1.byId[k]
    {
      DoubledRecord(rs, k);
    }
    assert m2.byId == m1.byId;
  }

  /** Folding backup rows followed by live rows: the input of `fetchStores`'s loop. */
  function Incoming(backup: seq<Store>, nhi: seq<Store>, dayStart: int): (r: seq<Store>)
    ensures |nhi| <= |r| <= |backup| + |nhi| && r[|r| - |nhi|..] == nhi
    ensures forall s :: s in r <==> (s in backup && s.updatedAt > dayStart) || s in nhi
  {
    var f := Fresh(backup, dayStart);
    assert (f + nhi)[|f|..] == nhi;
    f + nhi
  }

  lemma LastIndexShift(xs: seq<string>, ys: seq<string>, k: string)
    requires k in ys
    ensures k in xs + ys
    ensures LastIndex(xs + ys, k) == |xs| + LastIndex(ys, k)
  {
    var zs := xs + ys;
    assert forall j :: |xs| <= j < |zs| ==> zs[j] == ys[j - |xs|];
    LastIndexIs(zs, k, |xs| + LastIndex(ys, k));
  }

  /**
   * The live feed wins: for an id it carries, every field but `amount` comes
   * from its last live record, whatever the backup held.
   */
  lemma NhiWins(backup: seq<Store>, nhi: seq<Store>, dayStart: int, k: string)
    requires k in Ids(nhi)
    ensures k in MergeAll(Incoming(backup, nhi, dayStart)).byId
    ensures SameExceptAmount(MergeAll(Incoming(backup, nhi, dayStart)).byId[k], nhi[LastIndex(Ids(nhi), k)])
  {
    LaterPartWins(Fresh(backup, dayStart), nhi, k);
  }

  /** For an id the second part carries, the fields come from that part's last record. */
  lemma LaterPartWins(a: seq<Store>, b: seq<Store>, k: string)
    requires k in Ids(b)
    ensures k in MergeAll(a + b).byId
    ensures SameExceptAmount(MergeAll(a + b).byId[k], b[LastIndex(Ids(b), k)])
  {
    var all, l := a + b, LastIndex(Ids(b), k);
    assert all[|a| + l] == b[l];
    LastIndexAppend(a, b, k);
    LastWinsAt(all, k, |a| + l);
  }

  /** `MergeLastWins` with the last position given. */
  lemma LastWinsAt(rs: seq<Store>, k: string, i: nat)
    requires k in Ids(rs) && i == LastIndex(Ids(rs), k)
    ensures i < |rs| && k in MergeAll(rs).byId
    ensures SameExceptAmount(MergeAll(rs).byId[k], rs[i])
  {
    MergeLastWins(rs, k);
  }

  lemma LastIndexAppend(a: seq<Store>, b: seq<Store>, k: string)
    requires k in Ids(b)
    ensures k in Ids(a + b) && LastIndex(Ids(a + b), k) == |a| + LastIndex(Ids(b), k)
  {
    IdsAppend(a, b);
    LastIndexShift(Ids(a), Ids(b), k);
  }

  /** An id is kept exactly when a live row or a backup row newer than the day start carries it. */
  lemma IncomingKeys(backup: seq<Store>, nhi: seq<Store>, dayStart: int, k: string)
    ensures k in MergeAll(Incoming(backup, nhi, dayStart)).byId <==>
      k in Ids(nhi) || exists i :: 0 <= i < |backup| && backup[i].id == k && backup[i].updatedAt > dayStart
  {
    var f := Fresh(backup, dayStart);
    IdsAppend(f, nhi);
    FreshSpec(backup, dayStart);
    if k in Ids(f) {
      var j :| 0 <= j < |f| && f[j].id == k;
      assert f[j] in f;
    }
    if i :| 0 <= i < |backup| && backup[i].id == k && backup[i].updatedAt > dayStart {
      assert backup[i] in f;
      var j :| 0 <= j < |f| && f[j] == backup[i];
      assert Ids(f)[j] == k;
    }
  }

  lemma SafeAppend(a: seq<Store>, b: seq<Store>)
    requires SafeAmounts(a) && SafeAmounts(b)
    ensures SafeAmounts(a + b)
  {
    assert forall j :: 0 <= j < |b| ==> (a + b)[|a| + j] == b[j];
  }

  lemma FreshSafe(backup: seq<Store>, dayStart: int)
    requires SafeAmounts(backup)
    ensures SafeAmounts(Fresh(backup, dayStart))
  {
    var f := Fresh(backup, dayStart);
    FreshSpec(backup, dayStart);
    forall j | 0 <= j < |f|
      ensures IsSafeInteger(f[j].amount)
    {
      assert f[j] in f;
      var i :| 0 <= i < |backup| && backup[i] == f[j];
    }
  }

  /** The position in the filtered backup of a row that survives. */
  lemma FreshPosition(backup: seq<Store>, dayStart: int, i: nat) returns (j: nat)
    requires i < |backup| && backup[i].updatedAt > dayStart
    ensures j < |Fresh(backup, dayStart)| && Fresh(backup, dayStart)[j] == backup[i]
  {
    FreshSpec(backup, dayStart);
    assert backup[i] in Fresh(backup, dayStart);
    j :| 0 <= j < |Fresh(backup, dayStart)| && Fresh(backup, dayStart)[j] == backup[i];
  }

  /**
   * Every amount seen for an id, in the live feed or in a backup row newer
   * than the day start, is at most the merged amount, which is never negative.
   */
  lemma AmountMonotone(backup: seq<Store>, nhi: seq<Store>, dayStart: int, k: string)
    requires SafeAmounts(backup) && SafeAmounts(nhi)
    requires k in Ids(Incoming(backup, nhi, dayStart))
    ensures k in MergeAll(Incoming(backup, nhi, dayStart)).byId
    ensures var a := MergeAll(Incoming(backup, nhi, dayStart)).byId[k].amount;
      && a >= 0
      && (forall i :: 0 <= i < |nhi| && nhi[i].id == k ==> nhi[i].amount <= a)
      && (forall i :: 0 <= i < |backup| && backup[i].id == k && backup[i].updatedAt > dayStart ==>
            backup[i].amount <= a)
  {
    var f := Fresh(backup, dayStart);
    var all := f + nhi;
    FreshSafe(backup, dayStart);
    SafeAppend(f, nhi);
    MergeAmountIsMax(all, k);
    var a := MergeAll(all).byId[k].amount;
    MaxCoversParts(f, nhi, k, a);
    forall i | 0 <= i < |backup| && backup[i].id == k && backup[i].updatedAt > dayStart
      ensures backup[i].amount <= a
    {
      var j := FreshPosition(backup, dayStart, i);
    }
  }

  lemma MaxCoversParts(a: seq<Store>, b: seq<Store>, k: string, m: int)
    requires IsMaxAmount(a + b, k, m)
    ensures forall i :: 0 <= i < |a| && a[i].id == k ==> a[i].amount <= m
    ensures forall i :: 0 <= i < |b| && b[i].id == k ==> b[i].amount <= m
  {
    assert forall i :: 0 <= i < |a| ==> (a + b)[i] == a[i];
    assert forall i :: 0 <= i < |b| ==> (a + b)[|a| + i] == b[i];
  }

  /**
   * The backup and the live feed being the same current records, the
   * merge is the merge of the records once.
   */
  lemma IncomingSelf(rs: seq<Store>, dayStart: int)
    requires forall i :: 0 <= i < |rs| ==> rs[i].updatedAt > dayStart
    ensures MergeAll(Incoming(rs, rs, dayStart)) == MergeAll(rs)
  {
    FreshKeepsNew(rs, dayStart);
    MergeSelfIdempotent(rs);
  }

  /**
   * A backup row from 01:00 today with amount 50 and a live row for the same
   * id with amount 30: the merged record is the live one, with amount 50.
   */
  lemma MergeExample(now: int, b: Store, n: Store)
    requires b.id == "A1" && n.id == "A1"
    requires b.amount == 50 && n.amount == 30
    requires b.updatedAt == StartOfDay(now) + 3600
    ensures Values(MergeAll(Incoming([b], [n], StartOfDay(now)))) == [n.(amount := 50)]
  {
    var d := StartOfDay(now);
    FreshKeepsNew([b], d);
    assert [b] + [n] == [b, n];
    MergePair(b, n);
  }

  /** A backup holding only rows newer than the day start passes the filter whole. */
  lemma FreshKeepsNew(rows: seq<Store>, dayStart: int)
    requires forall i :: 0 <= i < |rows| ==> rows[i].updatedAt > dayStart
    ensures Fresh(rows, dayStart) == rows
  {
    FilterMapKeepsAll(FreshRule(dayStart), rows);
  }

  /** Two rows merged: the first alone, then the second absorbed into it. */
  lemma MergePair(b: Store, n: Store)
    ensures MergeAll([b, n]) == Absorb(Absorb(Merged(map[], []), b), n)
  {
    assert MergeAll([b]) == Absorb(MergeAll([]), b) by {
      assert [b][..0] == [];
    }
    assert [b, n][..1] == [b];
  }

  /**
   * `fetchStores` after the two downloads, with `now` the current instant in
   * Unix seconds: exactly one record per id of the incoming rows, in order
   * of first occurrence, each carrying the last record's fields and the
   * larger of the last record's amount and the clamped running maximum;
   * when amounts are safe integers, that is the largest amount seen for its id.
   */
  method FetchStores(backup: seq<Store>, nhi: seq<Store>, now: int) returns (stores: seq<Store>)
    ensures stores == Values(MergeAll(Incoming(backup, nhi, StartOfDay(now))))
    ensures NoDup(Ids(stores))
    ensures forall k :: k in Ids(stores) <==> k in Ids(Incoming(backup, nhi, StartOfDay(now)))
    ensures FirstOccurrenceOrder(Ids(stores), Ids(Incoming(backup, nhi, StartOfDay(now))))
    ensures forall j :: 0 <= j < |stores| ==>
      var all := Incoming(backup, nhi, StartOfDay(now));
      stores[j].id in Ids(all) && SameExceptAmount(stores[j], all[LastIndex(Ids(all), stores[j].id)])
    ensures forall j :: 0 <= j < |stores| ==>
      var all := Incoming(backup, nhi, StartOfDay(now));
      stores[j].amount == Max(all[LastIndex(Ids(all), stores[j].id)].amount, ClampedMax(all, stores[j].id))
    ensures SafeAmounts(Incoming(backup, nhi, StartOfDay(now))) ==>
      forall j :: 0 <= j < |stores| ==>
        IsMaxAmount(Incoming(backup, nhi, StartOfDay(now)), stores[j].id, stores[j].amount)
  {
    var all := Incoming(backup, nhi, StartOfDay(now));
    var merged := MergeLoop(all);
    stores := Values(merged);
    MergeOrder(all);
    MergedValues(all);
  }

  /** The `for … of` loop of `fetchStores`, absorbing the rows one by one into an empty map. */
  method MergeLoop(all: seq<Store>) returns (merged: Merged)
    ensures merged == MergeAll(all)
  {
    merged := Merged(map[], []);
    var i := 0;
    while i < |all|
      invariant 0 <= i <= |all|
      invariant merged == MergeAll(all[..i])
    {
      assert all[..i + 1][..i] == all[..i];
      merged := Absorb(merged, all[i]);
      i := i + 1;
    }
    assert all[..i] == all;
  }

  /** Every value of the merge of `all` is the last record for its id, with the largest amount when amounts are safe. */
  lemma MergedValues(all: seq<Store>)
    ensures forall j :: 0 <= j < |Values(MergeAll(all))| ==>
      var s := Values(MergeAll(all))[j];
      s.id in Ids(all) && SameExceptAmount(s, all[LastIndex(Ids(all), s.id)])
    ensures forall j :: 0 <= j < |Values(MergeAll(all))| ==>
      var s := Values(MergeAll(all))[j];
      s.amount == Max(all[LastIndex(Ids(all), s.id)].amount, ClampedMax(all, s.id))
    ensures SafeAmounts(all) ==>
      forall j :: 0 <= j < |Values(MergeAll(all))| ==>
        IsMaxAmount(all, Values(MergeAll(all))[j].id, Values(MergeAll(all))[j].amount)
  {
    var merged := MergeAll(all);
    var stores := Values(merged);
    forall j | 0 <= j < |stores|
      ensures stores[j].id in Ids(all) && SameExceptAmount(stores[j], all[LastIndex(Ids(all), stores[j].id)])
      ensures stores[j].amount == Max(all[LastIndex(Ids(all), stores[j].id)].amount, ClampedMax(all, stores[j].id))
      ensures SafeAmounts(all) ==> IsMaxAmount(all, stores[j].id, stores[j].amount)
    {
      var k := merged.order[j];
      assert stores[j] == merged.byId[k];
      MergeLastWins(all, k);
      MergeAmountClamped(all, k);
      if SafeAmounts(all) {
        MergeAmountIsMax(all, k);
      }
    }
  }
}
