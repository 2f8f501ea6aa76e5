/**
 What the SET clause of an update assigns: the columns that survive in the text accumulated on the ring, in
 terms of nothing but which columns are dirty.
 */
module SqlAssignments {
  import opened Options
  import opened SqlText
  import opened SqlRing

  /** The columns a statement assigns, in order, or no telling because a buffer is printed into itself. */
  datatype Written = Written(columns: seq<nat>) | Unknown

  /** From column `at` on, with `done` assigned by a text `d` slots behind the current one. */
  function Assign(done: seq<nat>, d: nat, dirty: seq<bool>, at: nat): Written
    requires at <= |dirty|
    decreases |dirty| - at
  {
    if at == |dirty| then Written(done)
    else if !dirty[at] then Assign(done, (d + 1) % RING_SIZE, dirty, at + 1)
    else if done == [] then Assign([at], 1, dirty, at + 1)
    else if d == 2 then Unknown
    else Assign((if d == 0 then [at] else done) + [at], 1, dirty, at + 1)
  }

  function Statement(dirty: seq<bool>): Written {
    Assign([], 0, dirty, 0)
  }

  // ---------------------------------------------------------------- the text says so

  function Flags(fields: seq<Field>): seq<bool> {
    seq(|fields|, i requires 0 <= i < |fields| => fields[i].changed)
  }

  predicate Known(fields: seq<Field>, columns: seq<nat>) {
    forall i :: 0 <= i < |columns| ==> columns[i] < |fields| && fields[columns[i]].value.Some?
  }

  function ItemsAt(fields: seq<Field>, columns: seq<nat>): seq<string>
    requires Known(fields, columns)
  {
    seq(|columns|, i requires 0 <= i < |columns| => Item(fields[columns[i]]))
  }

  /** The text that makes exactly these assignments. */
  function TextOf(fields: seq<Field>, written: Written): Accumulated
    requires written.Written? ==> Known(fields, written.columns)
  {
    if written.Unknown? then Undefined
    else if written.columns == [] then NoText
    else Text(Fit(Join(ItemsAt(fields, written.columns))))
  }

  lemma {:induction false} JoinAppend(t: string, items: seq<string>, x: string)
    ensures JoinMore(t, items + [x]) == JoinMore(t, items) + ", " + x
    decreases |items|
  {
    if items == [] {
      assert [x][1..] == [] && items + [x] == [x];
    } else {
      assert (items + [x])[0] == items[0] && (items + [x])[1..] == items[1..] + [x];
      JoinAppend(t + ", " + items[0], items[1..], x);
    }
  }

  /** One more assignment behind those already there. */
  lemma TextAppend(fields: seq<Field>, done: seq<nat>, at: nat)
    requires done != [] && Known(fields, done) && at < |fields| && fields[at].value.Some?
    ensures Known(fields, done + [at])
    ensures TextOf(fields, Written(done + [at])) ==
            Text(Fit(TextOf(fields, Written(done)).t + ", " + Fit(Item(fields[at]))))
  {
    hide Fit;
    var items, x := ItemsAt(fields, done), Item(fields[at]);
    assert ItemsAt(fields, done + [at]) == items + [x];
    assert (items + [x])[0] == items[0] && (items + [x])[1..] == items[1..] + [x];
    JoinAppend(items[0], items[1..], x);
    FitParts(Join(items), ", ", x);
    FitParts(Fit(Join(items)), ", ", x);
  }

  lemma TextOne(fields: seq<Field>, at: nat)
    requires at < |fields| && fields[at].value.Some?
    ensures Known(fields, [at]) && TextOf(fields, Written([at])) == Text(Fit(Item(fields[at])))
  {
    assert ItemsAt(fields, [at]) == [Item(fields[at])];
    assert [Item(fields[at])][1..] == [];
  }

  lemma {:induction false} AssignText(fields: seq<Field>, done: seq<nat>, d: nat, at: nat)
    requires AllValued(fields) && Known(fields, done) && at <= |fields| && d < RING_SIZE
    ensures var written := Assign(done, d, Flags(fields), at);
            && (written.Written? ==> Known(fields, written.columns))
            && Update(TextOf(fields, Written(done)), d, fields[at..]) == TextOf(fields, written)
    decreases |fields| - at
  {
    hide Fit, TextOf, ItemsAt, Known;
    if at < |fields| {
      var f, rest := fields[at], fields[at + 1..];
      assert fields[at..][0] == f && fields[at..][1..] == rest;
      var d1 := if f.changed then 1 else (d + 1) % RING_SIZE;
      TextIsText(fields, done);
      if !f.changed {
        AssignText(fields, done, d1, at + 1);
      } else {
        TextOne(fields, at);
        if done == [] {
          AssignText(fields, [at], 1, at + 1);
        } else if d != 2 {
          var kept := if d == 0 then [at] else done;
          TextAppend(fields, kept, at);
          AssignText(fields, kept + [at], 1, at + 1);
        } else {
          UnknownText(fields);
        }
      }
    } else {
      assert fields[at..] == [];
    }
  }

  lemma TextIsText(fields: seq<Field>, done: seq<nat>)
    requires Known(fields, done)
    ensures if done == [] then TextOf(fields, Written(done)) == NoText else TextOf(fields, Written(done)).Text?
  {
  }

  lemma UnknownText(fields: seq<Field>)
    ensures TextOf(fields, Unknown) == Undefined
  {
  }

  /** The text formatted for a dirty set is the join of exactly the assignments of `Statement`. */
  lemma StatementText(fields: seq<Field>)
    requires AllValued(fields)
    ensures var written := Statement(Flags(fields));
            && (written.Written? ==> Known(fields, written.columns))
            && Update(NoText, 0, fields) == TextOf(fields, written)
  {
    AssignText(fields, [], 0, 0);
    assert fields[0..] == fields;
  }

  // ---------------------------------------------------------------- which columns

  /** Two dirty columns with only clean ones between them. */
  predicate DirtyNeighbours(dirty: seq<bool>, i: nat, j: nat) {
    i < j < |dirty| && dirty[i] && dirty[j] && forall k :: i < k < j ==> !dirty[k]
  }

  /** Each run of clean columns between two dirty ones has a length divisible by three. */
  ghost predicate GapsDivide(dirty: seq<bool>) {
    forall i: nat, j: nat :: DirtyNeighbours(dirty, i, j) ==> (j - i - 1) % RING_SIZE == 0
  }

  predicate FirstDirty(dirty: seq<bool>, f: nat) {
    f < |dirty| && dirty[f] && forall k :: 0 <= k < f ==> !dirty[k]
  }

  /** The fields of a dirty set with names and values that do not matter. */
  function Plain(dirty: seq<bool>): seq<Field> {
    seq(|dirty|, i requires 0 <= i < |dirty| => Field("", dirty[i], Some("")))
  }

  lemma PlainGaps(dirty: seq<bool>)
    ensures GapsOfThree(Plain(dirty)) <==> GapsDivide(dirty)
  {
    var fields := Plain(dirty);
    forall i: nat, j: nat ensures Neighbours(fields, i, j) <==> DirtyNeighbours(dirty, i, j) {
      if Neighbours(fields, i, j) {
        forall k | i < k < j ensures !dirty[k] {
          assert !fields[k].changed;
        }
      }
    }
  }

  /** The columns named are dirty, and only those already done lie in front. */
  lemma {:induction false} AssignsDirty(done: seq<nat>, d: nat, dirty: seq<bool>, at: nat)
    requires at <= |dirty|
    ensures var w := Assign(done, d, dirty, at);
            w.Written? ==> forall j: nat :: j in w.columns ==> j in done || (at <= j < |dirty| && dirty[j])
    decreases |dirty| - at
  {
    if at < |dirty| {
      if !dirty[at] {
        AssignsDirty(done, (d + 1) % RING_SIZE, dirty, at + 1);
      } else if done == [] {
        AssignsDirty([at], 1, dirty, at + 1);
      } else if d != 2 {
        AssignsDirty((if d == 0 then [at] else done) + [at], 1, dirty, at + 1);
      }
    }
  }

  /** In step nothing is lost: every dirty column from `at` on joins those already done. */
  lemma {:induction false} InStepKeeps(done: seq<nat>, d: nat, dirty: seq<bool>, at: nat)
    requires at <= |dirty| && done != [] && AlignedFrom(d, Plain(dirty)[at..])
    ensures var w := Assign(done, d, dirty, at);
            && w.Written? && done <= w.columns
            && forall j: nat :: at <= j < |dirty| && dirty[j] ==> j in w.columns
    decreases |dirty| - at
  {
    if at < |dirty| {
      var fields := Plain(dirty);
      assert fields[at..][0] == fields[at] && fields[at..][1..] == fields[at + 1..];
      if !dirty[at] {
        InStepKeeps(done, (d + 1) % RING_SIZE, dirty, at + 1);
      } else {
        InStepKeeps(done + [at], 1, dirty, at + 1);
        var columns := Assign(done, d, dirty, at).columns;
        assert columns[|done|] == (done + [at])[|done|] == at;
      }
    }
  }

  /** Out of step everything done before is lost, if the text is defined at all. */
  lemma {:induction false} OutOfStepLoses(done: seq<nat>, d: nat, dirty: seq<bool>, at: nat)
    requires at <= |dirty| && done != [] && d < RING_SIZE && !AlignedFrom(d, Plain(dirty)[at..])
    ensures var w := Assign(done, d, dirty, at);
            w.Written? ==> w.columns != [] && forall j: nat :: j in w.columns ==> at <= j < |dirty| && dirty[j]
    decreases |dirty| - at
  {
    var fields := Plain(dirty);
    assert at < |dirty|;
    assert fields[at..][0] == fields[at] && fields[at..][1..] == fields[at + 1..];
    if !dirty[at] {
      OutOfStepLoses(done, (d + 1) % RING_SIZE, dirty, at + 1);
    } else if d == 0 {
      AssignsDirty([at] + [at], 1, dirty, at + 1);
      NeverEmpty([at] + [at], 1, dirty, at + 1);
    } else if d == 1 {
      OutOfStepLoses(done + [at], 1, dirty, at + 1);
    }
  }

  lemma {:induction false} NeverEmpty(done: seq<nat>, d: nat, dirty: seq<bool>, at: nat)
    requires at <= |dirty| && done != []
    ensures Assign(done, d, dirty, at).Written? ==> Assign(done, d, dirty, at).columns != []
    decreases |dirty| - at
  {
    if at < |dirty| {
      if !dirty[at] {
        NeverEmpty(done, (d + 1) % RING_SIZE, dirty, at + 1);
      } else if d != 2 {
        NeverEmpty((if d == 0 then [at] else done) + [at], 1, dirty, at + 1);
      }
    }
  }

  lemma {:induction false} SkipsClean(d: nat, dirty: seq<bool>, at: nat, f: nat)
    requires at <= f && FirstDirty(dirty, f)
    ensures Assign([], d, dirty, at) == Assign([f], 1, dirty, f + 1)
    decreases f - at
  {
    if at < f {
      SkipsClean((d + 1) % RING_SIZE, dirty, at + 1, f);
    }
  }

  lemma {:induction false} NothingDirty(d: nat, dirty: seq<bool>, at: nat)
    requires at <= |dirty| && forall i :: 0 <= i < |dirty| ==> !dirty[i]
    ensures Assign([], d, dirty, at) == Written([])
    decreases |dirty| - at
  {
    if at < |dirty| {
      NothingDirty((d + 1) % RING_SIZE, dirty, at + 1);
    }
  }

  /** The fields behind the first dirty one are in step exactly if the gaps divide by three. */
  lemma InStepIsGaps(dirty: seq<bool>, f: nat)
    requires FirstDirty(dirty, f)
    ensures AlignedFrom(1, Plain(dirty)[f + 1..]) <==> GapsDivide(dirty)
  {
    var fields := Plain(dirty);
    var d := (1 + 2 * f) % RING_SIZE;
    FromTheStart(d, dirty, 0, f);
    assert fields[0..] == fields;
    PlainGaps(dirty);
    AlignedIsGaps(d, fields);
    forall j: nat | FirstChanged(fields, j) ensures (d + j) % RING_SIZE == 1 {
      assert j == f by {
        assert fields[j].changed && fields[f].changed;
      }
    }
  }

  lemma {:induction false} FromTheStart(d: nat, dirty: seq<bool>, at: nat, f: nat)
    requires at <= f && FirstDirty(dirty, f) && d < RING_SIZE && (d + f - at) % RING_SIZE == 1
    ensures AlignedFrom(d, Plain(dirty)[at..]) <==> AlignedFrom(1, Plain(dirty)[f + 1..])
    decreases f - at
  {
    var fields := Plain(dirty);
    assert fields[at..][0] == fields[at] && fields[at..][1..] == fields[at + 1..];
    if at < f {
      FromTheStart((d + 1) % RING_SIZE, dirty, at + 1, f);
    }
  }

  /**
   The statement assigns exactly the dirty columns if their gaps divide by three. Otherwise, if its text is
   defined at all, it assigns some of them but never the first.
   */
  lemma StatementExact(dirty: seq<bool>, f: nat)
    requires FirstDirty(dirty, f)
    ensures GapsDivide(dirty) ==>
              && Statement(dirty).Written?
              && forall j: nat :: j in Statement(dirty).columns <==> j < |dirty| && dirty[j]
    ensures !GapsDivide(dirty) && Statement(dirty).Written? ==>
              && f !in Statement(dirty).columns && Statement(dirty).columns != []
              && forall j: nat :: j in Statement(dirty).columns ==> j < |dirty| && dirty[j]
  {
    hide GapsDivide, AlignedFrom, Assign;
    SkipsClean(0, dirty, 0, f);
    InStepIsGaps(dirty, f);
    AssignsDirty([f], 1, dirty, f + 1);
    if GapsDivide(dirty) {
      InStepKeeps([f], 1, dirty, f + 1);
      var columns := Statement(dirty).columns;
      assert columns[0] == [f][0] == f;
    } else {
      OutOfStepLoses([f], 1, dirty, f + 1);
    }
  }
}
