/** Giving every beam a sequence id of its own after several were picked from one parent. */
module BeamIds {
  import opened Wrappers

  function Uses(ids: seq<nat>, q: nat): nat {
    if ids == [] then 0 else (if ids[0] == q then 1 else 0) + Uses(ids[1..], q)
  }

  /** The smallest id from q on that nobody uses. */
  function FirstFree(ids: seq<nat>, n: nat, q: nat): (r: Option<nat>)
    ensures r.Some? ==> q <= r.value < n && Uses(ids, r.value) == 0 && forall p :: q <= p < r.value ==>
            Uses(ids, p) != 0
    ensures r.None? ==> forall p :: q <= p < n ==> Uses(ids, p) != 0
    decreases n - q
  {
    if q >= n then None else if Uses(ids, q) == 0 then Some(q) else FirstFree(ids, n, q + 1)
  }

  /** The first k beams looked at: one that shares its id gets a free one.  None: there is none. */
  function Reassign(ids: seq<nat>, n: nat, k: nat): (r: Option<seq<nat>>)
    requires k <= |ids|
    ensures r.Some? ==> |r.value| == |ids|
  {
    if k == 0 then Some(ids)
    else match Reassign(ids, n, k - 1)
      case None => None
      case Some(now) =>
        if Uses(now, now[k - 1]) > 1 then
          match FirstFree(now, n, 0)
          case None => None
          case Some(q) => Some(now[k - 1 := q])
        else Some(now)
  }

  // ---------- Counting ----------

  lemma {:induction false} UsesAppend(a: seq<nat>, b: seq<nat>, q: nat)
    ensures Uses(a + b, q) == Uses(a, q) + Uses(b, q)
  {
    if a == [] {
      assert a + b == b;
    } else {
      assert (a + b)[1..] == a[1..] + b;
      UsesAppend(a[1..], b, q);
    }
  }

  lemma UsesAfter(ids: seq<nat>, k: nat, q: nat, p: nat)
    requires k < |ids|
    ensures Uses(ids[k := q], p) == Uses(ids, p) - (if ids[k] == p then 1 else 0) + (if q == p then 1 else 0)
  {
    assert ids == ids[..k] + [ids[k]] + ids[k + 1..];
    assert ids[k := q] == ids[..k] + [q] + ids[k + 1..];
    UsesAppend(ids[..k] + [ids[k]], ids[k + 1..], p);
    UsesAppend(ids[..k], [ids[k]], p);
    UsesAppend(ids[..k] + [q], ids[k + 1..], p);
    UsesAppend(ids[..k], [q], p);
  }

  lemma {:induction false} UsedIffThere(ids: seq<nat>, q: nat)
    ensures Uses(ids, q) > 0 <==> q in ids
  {
    if ids == [] {
    } else {
      UsedIffThere(ids[1..], q);
      assert q in ids <==> q == ids[0] || q in ids[1..];
    }
  }

  /** An id used once is used at one place. */
  lemma UsedOnce(ids: seq<nat>, i: nat, j: nat)
    requires i < j < |ids| && ids[i] == ids[j]
    ensures Uses(ids, ids[i]) > 1
  {
    assert ids == ids[..j] + ids[j..];
    UsesAppend(ids[..j], ids[j..], ids[i]);
    UsedIffThere(ids[..j], ids[i]);
    UsedIffThere(ids[j..], ids[i]);
    assert ids[..j][i] == ids[i] && ids[j..][0] == ids[i];
  }

  lemma {:induction false} UsedTwice(ids: seq<nat>, i: nat) returns (j: nat)
    requires i < |ids| && Uses(ids, ids[i]) > 1
    ensures j < |ids| && j != i && ids[j] == ids[i]
  {
    assert ids == ids[..i] + [ids[i]] + ids[i + 1..];
    UsesAppend(ids[..i] + [ids[i]], ids[i + 1..], ids[i]);
    UsesAppend(ids[..i], [ids[i]], ids[i]);
    UsedIffThere(ids[..i], ids[i]);
    UsedIffThere(ids[i + 1..], ids[i]);
    if ids[i] in ids[..i] {
      j :| 0 <= j < i && ids[..i][j] == ids[i];
    } else {
      var m :| 0 <= m < |ids[i + 1..]| && ids[i + 1..][m] == ids[i];
      j := i + 1 + m;
    }
  }

  // ---------- A free id always exists ----------

  function TotalUses(ids: seq<nat>, n: nat): nat {
    if n == 0 then 0 else TotalUses(ids, n - 1) + Uses(ids, n - 1)
  }

  lemma {:induction false} TotalIsLength(ids: seq<nat>, n: nat)
    requires forall i :: 0 <= i < |ids| ==> ids[i] < n
    ensures TotalUses(ids, n) == |ids|
  {
    if ids == [] {
      TotalOfNone(n);
    } else {
      TotalIsLength(ids[1..], n);
      TotalOfMore(ids, n);
    }
  }

  lemma {:induction false} TotalOfNone(n: nat)
    ensures TotalUses([], n) == 0
  {
    if n == 0 {
    } else {
      TotalOfNone(n - 1);
    }
  }

  lemma {:induction false} TotalOfMore(ids: seq<nat>, n: nat)
    requires ids != []
    ensures TotalUses(ids, n) == TotalUses(ids[1..], n) + if ids[0] < n then 1 else 0
  {
    if n == 0 {
    } else {
      TotalOfMore(ids, n - 1);
    }
  }

  lemma {:induction false} AllUsed(ids: seq<nat>, n: nat)
    requires forall q :: 0 <= q < n ==> Uses(ids, q) >= 1
    ensures TotalUses(ids, n) >= n
    ensures forall q :: 0 <= q < n && Uses(ids, q) > 1 ==> TotalUses(ids, n) > n
  {
    if n == 0 {
    } else {
      AllUsed(ids, n - 1);
    }
  }

  /** Pigeonhole: if an id is shared and there are no more beams than ids, some id is free. */
  lemma FreeExists(ids: seq<nat>, n: nat, k: nat)
    requires |ids| <= n && k < |ids| && (forall i :: 0 <= i < |ids| ==> ids[i] < n) && Uses(ids, ids[k]) > 1
    ensures FirstFree(ids, n, 0).Some?
  {
    if FirstFree(ids, n, 0).None? {
      AllUsed(ids, n);
      TotalIsLength(ids, n);
    }
  }

  // ---------- What reassigning does ----------

  predicate LastUse(ids: seq<nat>, k: nat) {
    k < |ids| && forall j :: k < j < |ids| ==> ids[j] != ids[k]
  }

  /** After the first k beams: those from k on are as they were; of the ones before, the last
      user of an id has kept it, and every other has an id that nobody had, its own. */
  ghost predicate Reassigned(ids: seq<nat>, now: seq<nat>, n: nat, k: nat) {
    && |now| == |ids| && k <= |ids|
    && (forall i :: 0 <= i < |now| ==> now[i] < n)
    && (forall i :: k <= i < |ids| ==> now[i] == ids[i])
    && (forall i :: 0 <= i < k ==> now[i] == ids[i] || now[i] !in ids)
    && (forall i :: 0 <= i < k ==> (now[i] == ids[i] <==> LastUse(ids, i)))
    && (forall i, j :: 0 <= i < k && 0 <= j < |now| && i != j ==> now[i] != now[j])
  }

  lemma ReassignOne(ids: seq<nat>, now: seq<nat>, n: nat, k: nat)
    requires Reassigned(ids, now, n, k) && k < |ids| <= n
    ensures Uses(now, now[k]) > 1 ==>
            FirstFree(now, n, 0).Some? && Reassigned(ids, now[k := FirstFree(now, n, 0).value], n, k + 1)
    ensures Uses(now, now[k]) <= 1 ==> Reassigned(ids, now, n, k + 1)
  {
    if Uses(now, now[k]) > 1 {
      FreeExists(now, n, k);
      var q := FirstFree(now, n, 0).value;
      UsedIffThere(now, q);
      if q in ids { StillUsed(ids, now, n, k, q); }
      var j := UsedTwice(now, k);
      assert !LastUse(ids, k);
    } else {
      forall j | 0 <= j < |now| && j != k ensures now[j] != now[k] {
        if now[j] == now[k] { UsedOnce(now, if j < k then j else k, if j < k then k else j); }
      }
      LastOfSingle(ids, now, n, k);
    }
  }

  lemma LastOfSingle(ids: seq<nat>, now: seq<nat>, n: nat, k: nat)
    requires Reassigned(ids, now, n, k) && k < |ids| && forall j :: 0 <= j < |now| && j != k ==> now[j] != now[k]
    ensures LastUse(ids, k)
  {
    forall j | k < j < |ids| ensures ids[j] != ids[k] { assert now[j] == ids[j]; }
  }

  /** An id that was somebody's is still in use: the last of its first users has it. */
  lemma StillUsed(ids: seq<nat>, now: seq<nat>, n: nat, k: nat, q: nat)
    requires Reassigned(ids, now, n, k) && q in ids
    ensures q in now
  {
    var m := LastUser(ids, q);
    assert now[m] == ids[m];
  }

  lemma {:induction false} LastUser(ids: seq<nat>, q: nat) returns (m: nat)
    requires q in ids
    ensures m < |ids| && ids[m] == q && LastUse(ids, m)
  {
    if ids[|ids| - 1] == q {
      m := |ids| - 1;
    } else {
      var init := ids[..|ids| - 1];
      assert ids == init + [ids[|ids| - 1]];
      m := LastUser(init, q);
      forall j | m < j < |ids| ensures ids[j] != ids[m] { assert j < |ids| - 1 ==> ids[j] == init[j]; }
    }
  }

  lemma {:induction false} ReassignKeeps(ids: seq<nat>, n: nat, k: nat)
    requires |ids| <= n && k <= |ids| && forall i :: 0 <= i < |ids| ==> ids[i] < n
    ensures Reassign(ids, n, k).Some? && Reassigned(ids, Reassign(ids, n, k).value, n, k)
  {
    if k == 0 {
    } else {
      ReassignKeeps(ids, n, k - 1);
      ReassignOne(ids, Reassign(ids, n, k - 1).value, n, k - 1);
    }
  }

  /** Reassigning never runs out of ids; afterwards all ids are distinct and in range, the last
      user of each id has kept it, and every other beam has an id that no beam had. */
  lemma ReassignIsRight(ids: seq<nat>, n: nat)
    requires |ids| <= n && forall i :: 0 <= i < |ids| ==> ids[i] < n
    ensures Reassign(ids, n, |ids|).Some?
    ensures var now := Reassign(ids, n, |ids|).value;
            && (forall i :: 0 <= i < |now| ==> now[i] < n)
            && (forall i, j :: 0 <= i < j < |now| ==> now[i] != now[j])
            && (forall i :: 0 <= i < |ids| ==> (now[i] == ids[i] <==> LastUse(ids, i)))
            && (forall i :: 0 <= i < |ids| ==> now[i] == ids[i] || now[i] !in ids)
  {
    ReassignKeeps(ids, n, |ids|);
  }

  // ---------- Where every beam ends up, from the ids alone ----------

  /** The ids below m that nobody has, in order. */
  function Unused(ids: seq<nat>, m: nat): (r: seq<nat>)
    ensures forall q: nat :: q in r <==> q < m && q !in ids
  {
    if m == 0 then [] else
      var rest, last: seq<nat> := Unused(ids, m - 1), if m - 1 in ids then [] else [m - 1];
      assert forall q: nat :: q in rest + last <==> q in rest || q in last;
      rest + last
  }

  lemma {:induction false} UnusedAscends(ids: seq<nat>, m: nat)
    ensures forall a, b :: 0 <= a < b < |Unused(ids, m)| ==> Unused(ids, m)[a] < Unused(ids, m)[b]
  {
    if m == 0 {
    } else {
      UnusedAscends(ids, m - 1);
      var r := Unused(ids, m - 1);
      forall a, b | 0 <= a < b < |Unused(ids, m)| ensures Unused(ids, m)[a] < Unused(ids, m)[b] {
        assert r[a] in r;
      }
    }
  }

  /** How many of the first k beams share their id with a later one. */
  function Movers(ids: seq<nat>, k: nat): nat
    requires k <= |ids|
  {
    if k == 0 then 0 else Movers(ids, k - 1) + if LastUse(ids, k - 1) then 0 else 1
  }

  lemma {:induction false} MoverAt(ids: seq<nat>, k: nat, a: nat) returns (i: nat)
    requires k <= |ids| && a < Movers(ids, k)
    ensures i < k && !LastUse(ids, i) && Movers(ids, i) == a
  {
    if !LastUse(ids, k - 1) && a == Movers(ids, k - 1) {
      i := k - 1;
    } else {
      i := MoverAt(ids, k - 1, a);
    }
  }

  lemma {:induction false} MoversGrow(ids: seq<nat>, i: nat, k: nat)
    requires i < k <= |ids|
    ensures Movers(ids, i) <= Movers(ids, k) && (!LastUse(ids, i) ==> Movers(ids, i) < Movers(ids, k))
  {
    if i < k - 1 {
      MoversGrow(ids, i, k - 1);
    }
  }

  /** Beam i, as far as it has been looked at, is where the ids say. */
  ghost predicate Settled(ids: seq<nat>, now: seq<nat>, n: nat, i: nat) {
    && i < |ids| && i < |now|
    && if LastUse(ids, i) then now[i] == ids[i]
       else Movers(ids, i) < |Unused(ids, n)| && now[i] == Unused(ids, n)[Movers(ids, i)]
  }

  /** The next free id is the first unused one that no beam before k has moved to. */
  lemma NextFree(ids: seq<nat>, now: seq<nat>, n: nat, k: nat)
    requires Reassigned(ids, now, n, k) && (forall i :: 0 <= i < k ==> Settled(ids, now, n, i))
    requires FirstFree(now, n, 0).Some?
    ensures Movers(ids, k) < |Unused(ids, n)| && FirstFree(now, n, 0).value == Unused(ids, n)[Movers(ids, k)]
  {
    hide FirstFree, Movers;
    var q, free := FirstFree(now, n, 0).value, Unused(ids, n);
    UsedIffThere(now, q);
    if q in ids {
      StillUsed(ids, now, n, k, q);
    }
    var m :| 0 <= m < |free| && free[m] == q;
    UnusedAscends(ids, n);
    if m < Movers(ids, k) {
      MovedTo(ids, now, n, k, m);
    }
    NotMovedTo(ids, now, n, k);
    UsedIffThere(now, free[Movers(ids, k)]);
  }

  lemma MovedTo(ids: seq<nat>, now: seq<nat>, n: nat, k: nat, a: nat)
    requires Reassigned(ids, now, n, k) && (forall i :: 0 <= i < k ==> Settled(ids, now, n, i))
    requires a < Movers(ids, k) && a < |Unused(ids, n)|
    ensures Unused(ids, n)[a] in now
  {
    var i := MoverAt(ids, k, a);
    assert Settled(ids, now, n, i);
  }

  lemma NotMovedTo(ids: seq<nat>, now: seq<nat>, n: nat, k: nat)
    requires Reassigned(ids, now, n, k) && (forall i :: 0 <= i < k ==> Settled(ids, now, n, i))
    requires Movers(ids, k) < |Unused(ids, n)|
    ensures Unused(ids, n)[Movers(ids, k)] !in now
  {
    var free := Unused(ids, n);
    var q := free[Movers(ids, k)];
    assert q in free;
    UnusedAscends(ids, n);
    forall i | 0 <= i < |now| ensures now[i] != q {
      if i < k {
        assert Settled(ids, now, n, i);
        MoversGrow(ids, i, k);
      }
      assert ids[i] in ids;
    }
  }

  lemma {:induction false} SettledSoFar(ids: seq<nat>, n: nat, k: nat)
    requires |ids| <= n && k <= |ids| && forall i :: 0 <= i < |ids| ==> ids[i] < n
    ensures Reassign(ids, n, k).Some? && forall i :: 0 <= i < k ==> Settled(ids, Reassign(ids, n, k).value, n, i)
  {
    ReassignKeeps(ids, n, k);
    if k == 0 {
    } else {
      ReassignKeeps(ids, n, k - 1);
      SettledSoFar(ids, n, k - 1);
      SettleOne(ids, Reassign(ids, n, k - 1).value, Reassign(ids, n, k).value, n, k - 1);
    }
  }

  lemma SettleOne(ids: seq<nat>, now: seq<nat>, now': seq<nat>, n: nat, k: nat)
    requires Reassigned(ids, now, n, k) && Reassigned(ids, now', n, k + 1) && k < |ids|
    requires forall i :: 0 <= i < k ==> Settled(ids, now, n, i)
    requires if Uses(now, now[k]) > 1 then FirstFree(now, n, 0).Some? && now' == now[k := FirstFree(now, n, 0).value]
             else now' == now
    ensures forall i :: 0 <= i < k + 1 ==> Settled(ids, now', n, i)
  {
    hide FirstFree, Uses, Movers;
    if FirstFree(now, n, 0).Some? {
      NextFree(ids, now, n, k);
    }
    forall i | 0 <= i < k + 1 ensures Settled(ids, now', n, i) {
      if i < k {
        assert Settled(ids, now, n, i);
      }
    }
  }

  /** The ids alone say where every beam ends up: the last user of an id keeps it, and the k-th
      of the others, from the front, gets the k-th smallest id that nobody had. */
  lemma WhereBeamsEnd(ids: seq<nat>, n: nat, i: nat)
    requires |ids| <= n && i < |ids| && forall j :: 0 <= j < |ids| ==> ids[j] < n
    ensures Reassign(ids, n, |ids|).Some?
    ensures var end := Reassign(ids, n, |ids|).value[i];
            if LastUse(ids, i) then end == ids[i]
            else Movers(ids, i) < |Unused(ids, n)| && end == Unused(ids, n)[Movers(ids, i)]
  {
    SettledSoFar(ids, n, |ids|);
    assert Settled(ids, Reassign(ids, n, |ids|).value, n, i);
  }
}
