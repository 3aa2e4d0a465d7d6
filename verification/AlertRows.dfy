/** db.c: which alert each row of the database is made from. The slots of the ring are written and read
    without a lock, so a row is that of the alert in its turn only under a condition on the run. */
module AlertRows {
  import opened Wrappers
  import opened AlertRing

  ghost predicate Possible(p: nat, acts: seq<Action>) { 0 < p <= WORD - SIZE && After(Initial(p), acts).Some? }

  lemma {:induction false} PrefixPossible(r: Ring, acts: seq<Action>, k: nat)
    requires After(r, acts).Some? && k <= |acts|
    ensures After(r, acts[..k]).Some?
    decreases |acts|
  {
    var n := |acts| - 1;
    if k == |acts| {
      assert acts[..k] == acts;
    } else {
      PrefixPossible(r, acts[..n], k);
      assert acts[..n][..k] == acts[..k];
    }
  }

  // The ring after the first k steps of the run.
  ghost function At(p: nat, acts: seq<Action>, k: nat): (r: Ring)
    requires Possible(p, acts) && k <= |acts|
    ensures |r.rows| == r.head && |r.slots| == SIZE && Inv(r) && |r.producers| == p
  {
    PrefixPossible(Initial(p), acts, k);
    StartsWell(p);
    RunKeeps(Initial(p), acts[..k]);
    After(Initial(p), acts[..k]).value
  }

  lemma StepAt(p: nat, acts: seq<Action>, k: nat)
    requires Possible(p, acts) && k < |acts|
    ensures Enabled(At(p, acts, k), acts[k]) && At(p, acts, k + 1) == Apply(At(p, acts, k), acts[k])
  {
    hide Apply, Enabled, Inv;
    PrefixPossible(Initial(p), acts, k + 1);
    assert acts[..k + 1][..k] == acts[..k];
  }

  // The entry filled by step k, if it fills one.
  ghost function Filled(p: nat, acts: seq<Action>, k: nat): Option<nat>
    requires Possible(p, acts) && k < |acts|
  {
    StepAt(p, acts, k);
    if acts[k].Fill? then Some(At(p, acts, k).producers[acts[k].i].index) else None
  }

  // ---------- A slot holds what was filled in last ----------

  ghost predicate SameSlot(p: nat, acts: seq<Action>, k: nat, m: nat)
    requires Possible(p, acts) && k < |acts|
  {
    Filled(p, acts, k).Some? && Filled(p, acts, k).value % SIZE == m % SIZE
  }

  // Step f fills entry m, and no later step before n fills its slot again.
  ghost predicate LastFill(p: nat, acts: seq<Action>, f: nat, n: nat, m: nat)
    requires Possible(p, acts) && f < n <= |acts|
  {
    Filled(p, acts, f) == Some(m) && forall g | f < g < n :: !SameSlot(p, acts, g, m)
  }

  // The last fill of the slot of entry m among the first n steps was for that entry.
  ghost predicate Holds(p: nat, acts: seq<Action>, n: nat, m: nat)
    requires Possible(p, acts) && n <= |acts|
  {
    exists f: nat | f < n :: LastFill(p, acts, f, n, m)
  }

  lemma FillStep(r: Ring, a: Action, m: nat)
    requires Enabled(r, a) && |r.slots| == SIZE
    ensures Apply(r, a).slots[m % SIZE] ==
      if a.Fill? && r.producers[a.i].index % SIZE == m % SIZE then Some(r.producers[a.i].index) else r.slots[m % SIZE]
  {
  }

  lemma LastFillStep(p: nat, acts: seq<Action>, n: nat, m: nat)
    requires Possible(p, acts) && 0 < n <= |acts|
    ensures Holds(p, acts, n, m) <==>
      if SameSlot(p, acts, n - 1, m) then Filled(p, acts, n - 1) == Some(m) else Holds(p, acts, n - 1, m)
  {
    hide Filled;
    var k := n - 1;
    if SameSlot(p, acts, k, m) {
      if Filled(p, acts, k) == Some(m) {
        assert LastFill(p, acts, k, n, m);
      }
    } else {
      if f: nat :| f < n && LastFill(p, acts, f, n, m) {
        assert f < k && LastFill(p, acts, f, k, m);
      }
      if f: nat :| f < k && LastFill(p, acts, f, k, m) {
        assert LastFill(p, acts, f, n, m);
      }
    }
  }

  lemma {:induction false} SlotIs(p: nat, acts: seq<Action>, n: nat, m: nat)
    requires Possible(p, acts) && n <= |acts|
    ensures At(p, acts, n).slots[m % SIZE] == Some(m) <==> Holds(p, acts, n, m)
    decreases n
  {
    hide At, Apply, Enabled, LastFill;
    if n == 0 {
      EmptySlots(p, acts, m);
    } else {
      var k := n - 1;
      SlotIs(p, acts, k, m);
      StepAt(p, acts, k);
      FillStep(At(p, acts, k), acts[k], m);
      LastFillStep(p, acts, n, m);
    }
  }

  lemma EmptySlots(p: nat, acts: seq<Action>, m: nat)
    requires Possible(p, acts)
    ensures At(p, acts, 0).slots[m % SIZE] == None
  {
    assert acts[..0] == [];
  }

  // ---------- Rows stay as they were written ----------

  lemma {:induction false} RowsGrow(p: nat, acts: seq<Action>, k: nat, n: nat)
    requires Possible(p, acts) && k <= n <= |acts|
    ensures At(p, acts, k).rows <= At(p, acts, n).rows && At(p, acts, k).head <= At(p, acts, n).head
    decreases n
  {
    hide At, Inv;
    if k < n {
      RowsGrow(p, acts, k, n - 1);
      StepAt(p, acts, n - 1);
    }
  }

  lemma RowWritten(p: nat, acts: seq<Action>, k: nat)
    requires Possible(p, acts) && k < |acts| && acts[k] == WriteRow
    ensures var h := At(p, acts, k).head;
      At(p, acts, k + 1).head == h + 1 && At(p, acts, k + 1).rows[h] == At(p, acts, k).slots[h % SIZE]
  {
    hide At;
    StepAt(p, acts, k);
  }

  // The row written at step k, for the entry in turn, is made from that entry's alert if and only if the
  // entry was filled before and its slot was not filled again in between.
  lemma RowExactly(p: nat, acts: seq<Action>, k: nat)
    requires Possible(p, acts) && k < |acts| && acts[k] == WriteRow
    ensures var h, rows := At(p, acts, k).head, At(p, acts, |acts|).rows;
      h < |rows| && (rows[h] == Some(h) <==> Holds(p, acts, k, h))
  {
    hide At, LastFill, Inv;
    RowWritten(p, acts, k);
    RowsGrow(p, acts, k + 1, |acts|);
    SlotIs(p, acts, k, At(p, acts, k).head);
  }

  // ---------- An entry is filled once, and who else fills its slot ----------

  // No two producers fill the same entry.
  predicate Apart(r: Ring) {
    forall j, k | 0 <= j < k < |r.producers| && r.producers[j].Filling? && r.producers[k].Filling? ::
      r.producers[j].index != r.producers[k].index
  }

  ghost predicate NotFilling(r: Ring, m: nat) {
    m < r.tail && forall i | 0 <= i < |r.producers| :: r.producers[i] != Filling(m)
  }

  lemma StaysFilled(r: Ring, a: Action, m: nat)
    requires Inv(r) && Enabled(r, a) && NotFilling(r, m)
    ensures NotFilling(Apply(r, a), m)
  {
  }

  lemma FillEnds(r: Ring, i: nat)
    requires Inv(r) && Enabled(r, Fill(i)) && Apart(r)
    ensures NotFilling(Apply(r, Fill(i)), r.producers[i].index)
  {
    assert ProducerOk(r, i);
  }

  lemma StaysApart(r: Ring, a: Action)
    requires Inv(r) && Enabled(r, a) && Apart(r)
    ensures Apart(Apply(r, a))
  {
    var s := Apply(r, a);
    forall j, k | 0 <= j < k < |s.producers| && s.producers[j].Filling? && s.producers[k].Filling?
      ensures s.producers[j].index != s.producers[k].index
    {
      assert ProducerOk(r, j) && ProducerOk(r, k);
    }
  }

  lemma {:induction false} AlwaysApart(p: nat, acts: seq<Action>, n: nat)
    requires Possible(p, acts) && n <= |acts|
    ensures Apart(At(p, acts, n))
    decreases n
  {
    if n == 0 {
      assert acts[..0] == [];
    } else {
      AlwaysApart(p, acts, n - 1);
      StepAt(p, acts, n - 1);
      hide At, Apply, Enabled, Inv, Apart;
      StaysApart(At(p, acts, n - 1), acts[n - 1]);
    }
  }

  lemma {:induction false} NeverAgain(p: nat, acts: seq<Action>, f: nat, n: nat)
    requires Possible(p, acts) && f < n <= |acts| && Filled(p, acts, f).Some?
    ensures NotFilling(At(p, acts, n), Filled(p, acts, f).value)
    decreases n
  {
    var k := n - 1;
    StepAt(p, acts, k);
    if f == k {
      AlwaysApart(p, acts, k);
      hide At, Apply, Enabled, Inv, Apart, NotFilling;
      FillEnds(At(p, acts, k), acts[k].i);
    } else {
      NeverAgain(p, acts, f, k);
      hide At, Apply, Enabled, Inv, NotFilling;
      StaysFilled(At(p, acts, k), acts[k], Filled(p, acts, f).value);
    }
  }

  // So "its fill" is one step: no entry is filled twice.
  lemma FilledOnce(p: nat, acts: seq<Action>, f: nat, g: nat)
    requires Possible(p, acts) && f < g < |acts| && Filled(p, acts, f).Some? && Filled(p, acts, g).Some?
    ensures Filled(p, acts, f) != Filled(p, acts, g)
  {
    NeverAgain(p, acts, f, g);
    StepAt(p, acts, g);
    hide At, Inv;
  }

  // With at most 4097 producers the slot of the entry in turn is only filled again for the entry 4096
  // further on, or for an earlier one whose producer had stalled.
  lemma WhoElse(p: nat, acts: seq<Action>, k: nat, f: nat, g: nat)
    requires Possible(p, acts) && p <= SIZE + 1 && f < g < k < |acts|
    requires var h := At(p, acts, k).head; Filled(p, acts, f) == Some(h) && SameSlot(p, acts, g, h)
    ensures var h, m := At(p, acts, k).head, Filled(p, acts, g).value; m == h + SIZE || m < h
  {
    var h, m := At(p, acts, k).head, Filled(p, acts, g).value;
    FilledOnce(p, acts, f, g);
    RowsGrow(p, acts, g, k);
    StepAt(p, acts, g);
    hide At;
    var r := At(p, acts, g);
    Bound(r);
    assert ProducerOk(r, acts[g].i);
    NextInSlot(h, m, p);
  }

  lemma NextInSlot(h: nat, m: nat, p: nat)
    requires m % SIZE == h % SIZE && m != h && m < h + SIZE + p - 1 && p <= SIZE + 1
    ensures m == h + SIZE || m < h
  {
    if m > h {
      var a, b := h / SIZE, m / SIZE;
      assert m - h == (b - a) * SIZE;
    }
  }

  // A row can be written before its entry is filled: then it is not that entry's alert.
  lemma RowBeforeFill() returns (acts: seq<Action>)
    ensures Possible(1, acts) && After(Initial(1), acts).value.rows == [None]
  {
    var r0 := Initial(1);
    acts := Commit(r0, [], 0);
    OneMore(r0, acts, TakeSlot(0));
    acts := acts + [TakeSlot(0)];
    OneMore(r0, acts, WriterLoadHead);
    acts := acts + [WriterLoadHead];
    OneMore(r0, acts, WriterLoadTail);
    acts := acts + [WriterLoadTail];
    OneMore(r0, acts, WriteRow);
    acts := acts + [WriteRow];
  }
}
