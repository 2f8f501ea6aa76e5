/**
 The formatters of `MysqlDBManager`: text accumulated while it rotates through a ring of three buffers.

 A `char*` into the ring is a slot number, so the aliasing that decides correctness is visible. Writing a
 buffer from itself (overlapping `snprintf` arguments) is undefined and is reported as such.
 */
module SqlRing {
  import opened Options
  import opened SqlText

  const RING_SIZE := 3

  /** A pointer into the ring, or null. */
  type Slot = Option<nat>

  class Ring {
    const bufs: array<string>
    var index: nat

    constructor (start: nat)
      requires start < RING_SIZE
      ensures Valid() && index == start && fresh(bufs)
    {
      bufs := new string[RING_SIZE](_ => "");
      index := start;
    }

    predicate Valid()
      reads this
    {
      bufs.Length == RING_SIZE && index < RING_SIZE
    }

    method NextIndex()
      requires Valid()
      modifies this`index
      ensures Valid() && index == (old(index) + 1) % RING_SIZE
    {
      index := index + 1;
      if index >= bufs.Length {
        index := 0;
      }
    }

    /** `snprintf(buf, ..., "%s, %s", a, b)`; the destination must be neither source. */
    method PrintJoin(a: nat, b: nat)
      requires Valid() && a < RING_SIZE && b < RING_SIZE && index != a && index != b
      modifies bufs
      ensures bufs[..] == old(bufs[..])[index := Fit(old(bufs[a]) + ", " + old(bufs[b]))]
    {
      bufs[index] := Fit(bufs[a] + ", " + bufs[b]);
    }

    // -------------------------------------------------------------- INSERT

    method InsertName(head: Slot, name: string) returns (r: nat)
      requires Valid() && (head.Some? ==> head.value < RING_SIZE && head.value != index)
      modifies bufs
      ensures r == index
      ensures bufs[r] == if head.None? then Fit(name) else Fit(old(bufs[head.value]) + ", " + name)
    {
      if head.None? {
        bufs[index] := Fit(name);
      } else {
        bufs[index] := Fit(bufs[head.value] + ", " + name);
      }
      r := index;
    }

    /** `format_insert_field_name_str` over all fields: from any slot, the plain join of the names. */
    method InsertNames(head: Slot, names: seq<string>) returns (r: nat)
      requires Valid() && names != []
      requires head.Some? ==> head.value < RING_SIZE && index == (head.value + 1) % RING_SIZE
      modifies this`index, bufs
      ensures Valid() && r < RING_SIZE
      ensures bufs[r] == Fit(if head.None? then Join(names) else JoinMore(old(bufs[head.value]), names))
      decreases |names|
    {
      ghost var t := if head.None? then names[0] else bufs[head.value] + ", " + names[0];
      r := InsertName(head, names[0]);
      FitJoin(t, names[1..]);
      if |names| > 1 {
        NextIndex();
        r := InsertNames(Some(r), names[1..]);
      }
    }

    /** One value: formatted in the current slot, then joined behind the head in the next one. */
    method InsertValue(head: Slot, value: Option<string>) returns (r: Slot)
      requires Valid()
      requires head.Some? ==> head.value < RING_SIZE && index == (head.value + 1) % RING_SIZE
      modifies this`index, bufs
      ensures Valid()
      ensures r.Some? <==> value.Some?
      ensures r.Some? ==> r.value == index
      ensures r.Some? ==> bufs[r.value] ==
                          Fit(if head.None? then value.value else old(bufs[head.value]) + ", " + Fit(value.value))
    {
      if value.None? {
        return None;
      }
      bufs[index] := Fit(value.value);
      if head.Some? {
        var prev := index;
        NextIndex();
        PrintJoin(head.value, prev);
      }
      return Some(index);
    }

    /** `format_insert_field_value_str` over all fields: the plain join, or null if a value has no format. */
    method InsertValues(head: Slot, values: seq<Option<string>>) returns (r: Slot)
      requires Valid() && values != []
      requires head.Some? ==> head.value < RING_SIZE && index == (head.value + 1) % RING_SIZE
      modifies this`index, bufs
      ensures Valid()
      ensures r.Some? <==> AllFormatted(values)
      ensures r.Some? ==> r.value < RING_SIZE
      ensures r.Some? ==>
                bufs[r.value] ==
                Fit(if head.None? then Join(Formatted(values)) else JoinMore(old(bufs[head.value]), Formatted(values)))
      decreases |values|
    {
      r := InsertValue(head, values[0]);
      if r.None? {
        return None;
      }
      if AllFormatted(values) {
        assert Formatted(values) == [values[0].value] + Formatted(values[1..]);
        FitJoin(values[0].value, Formatted(values[1..]));
        if head.Some? {
          FitItem(old(bufs[head.value]), values[0].value, Formatted(values[1..]));
        }
      }
      if |values| > 1 {
        NextIndex();
        r := InsertValues(r, values[1..]);
      }
    }

    // -------------------------------------------------------------- UPDATE

    /** One field of an update; `defined` is false if a buffer would be printed into itself. */
    method UpdateField(head: Slot, f: Field) returns (r: Slot, defined: bool)
      requires Valid() && (head.Some? ==> head.value < RING_SIZE)
      modifies this`index, bufs
      ensures Valid() && (r.Some? ==> r.value < RING_SIZE)
      ensures !f.changed ==> defined && r == head && index == old(index) && bufs[..] == old(bufs[..])
      ensures f.changed && f.value.None? ==> defined && r == None
      ensures f.changed && f.value.Some? && head.None? ==>
                defined && r == Some(index) && bufs[index] == Fit(Item(f))
      ensures f.changed && f.value.Some? && head.Some? ==>
                var d := Distance(head.value, old(index));
                && (defined <==> d != 2)
                && (defined ==> r == Some(index) && bufs[index] ==
                                Fit((if d == 0 then Fit(Item(f)) else old(bufs[head.value])) + ", " + Fit(Item(f))))
    {
      hide Fit;
      if !f.changed {
        return head, true;
      }
      if f.value.None? {
        return None, true;
      }
      var tmp := Fit(f.value.value);
      FitParts(f.name, "=", f.value.value);
      bufs[index] := Fit(f.name + "=" + tmp);
      if head.Some? {
        var prev := index;
        NextIndex();
        if index == head.value {
          return None, false;
        }
        PrintJoin(head.value, prev);
      }
      return Some(index), true;
    }

    /** `format_update_field_value_str` over all fields. */
    method UpdateFields(head: Slot, fields: seq<Field>) returns (r: Slot, defined: bool)
      requires Valid() && fields != [] && (head.Some? ==> head.value < RING_SIZE)
      modifies this`index, bufs
      ensures Valid() && (r.Some? ==> r.value < RING_SIZE)
      ensures var acc := if head.None? then NoText else Text(old(bufs[head.value]));
              var d := if head.None? then 0 else Distance(head.value, old(index));
              match Update(acc, d, fields)
              case Undefined => !defined
              case NoText => defined && r == None
              case Text(t) => defined && r.Some? && bufs[r.value] == t
      decreases |fields|
    {
      ghost var acc := if head.None? then NoText else Text(bufs[head.value]);
      ghost var d := if head.None? then 0 else Distance(head.value, index);
      r, defined := UpdateField(head, fields[0]);
      ghost var acc1 := if !defined then Undefined else if r.None? then NoText else Text(bufs[r.value]);
      ghost var d1 := if fields[0].changed then 1 else (d + 1) % RING_SIZE;
      assert acc1 == UpdateStep(acc, d, fields[0]);
      assert Update(acc, d, fields) == Update(acc1, d1, fields[1..]);
      if !defined {
        return;
      }
      if |fields| > 1 {
        NextIndex();
        StartAnywhere(0, d1, fields[1..]);
        assert r.Some? ==> Distance(r.value, index) == d1;
        r, defined := UpdateFields(r, fields[1..]);
      }
    }
  }

  predicate AllFormatted(values: seq<Option<string>>) {
    forall i :: 0 <= i < |values| ==> values[i].Some?
  }

  function Formatted(values: seq<Option<string>>): seq<string>
    requires AllFormatted(values)
  {
    seq(|values|, i requires 0 <= i < |values| => values[i].value)
  }

  /** How many slots ahead of `head` the current index is. */
  function Distance(head: nat, index: nat): nat {
    (index + 2 * head) % RING_SIZE
  }

  // ---------------------------------------------------------------- what an update formats

  datatype Accumulated = Undefined | NoText | Text(t: string)

  /** One step of an update on the accumulated text, `d` slots behind the current one. */
  function UpdateStep(acc: Accumulated, d: nat, f: Field): Accumulated {
    if !f.changed then acc
    else if f.value.None? then NoText
    else match acc
      case Undefined => Undefined
      case NoText => Text(Fit(Item(f)))
      case Text(t) =>
        if d == 2 then Undefined
        else Text(Fit((if d == 0 then Fit(Item(f)) else t) + ", " + Fit(Item(f))))
  }

  /** All the steps; every changed field leaves the text one slot behind. */
  function Update(acc: Accumulated, d: nat, fields: seq<Field>): Accumulated
    decreases |fields|
  {
    if fields == [] || acc.Undefined? then acc
    else Update(UpdateStep(acc, d, fields[0]), if fields[0].changed then 1 else (d + 1) % RING_SIZE, fields[1..])
  }

  /** Without a text it does not matter where the ring stands. */
  lemma {:induction false} StartAnywhere(d: nat, e: nat, fields: seq<Field>)
    ensures Update(NoText, d, fields) == Update(NoText, e, fields)
    decreases |fields|
  {
    if fields != [] && !fields[0].changed {
      StartAnywhere((d + 1) % RING_SIZE, (e + 1) % RING_SIZE, fields[1..]);
    }
  }

  /** From a text `d` slots behind, every changed field has a value and meets the ring in step. */
  predicate AlignedFrom(d: nat, fields: seq<Field>)
    decreases |fields|
  {
    if fields == [] then true
    else if !fields[0].changed then AlignedFrom((d + 1) % RING_SIZE, fields[1..])
    else fields[0].value.Some? && d == 1 && AlignedFrom(1, fields[1..])
  }

  /** Two changed fields with none between them. */
  ghost predicate Neighbours(fields: seq<Field>, i: nat, j: nat) {
    && i < j < |fields| && fields[i].changed && fields[j].changed
    && forall k :: i < k < j ==> !fields[k].changed
  }

  /** Field `j` is the first changed one. */
  ghost predicate FirstChanged(fields: seq<Field>, j: nat) {
    j < |fields| && fields[j].changed && forall k :: 0 <= k < j ==> !fields[k].changed
  }

  ghost predicate AllValued(fields: seq<Field>) {
    forall i :: 0 <= i < |fields| && fields[i].changed ==> fields[i].value.Some?
  }

  ghost predicate EvenGaps(fields: seq<Field>) {
    forall i: nat, j: nat :: Neighbours(fields, i, j) ==> (j - i - 1) % RING_SIZE == 0
  }

  /** The condition on a dirty set: values exist, and the gaps between changed fields divide by three. */
  ghost predicate GapsOfThree(fields: seq<Field>) {
    AllValued(fields) && EvenGaps(fields)
  }

  /** The names a caller may use: columns of one table. */
  predicate Columns(fields: seq<Field>) {
    && (forall i :: 0 <= i < |fields| ==> ColumnName(fields[i].name))
    && (forall i, j :: 0 <= i < j < |fields| ==> fields[i].name != fields[j].name)
  }

  /** The text, if there is one, starts with the assignment of another column than `name`. */
  ghost predicate LeadsWithOther(acc: Accumulated, name: string) {
    acc.Text? ==> exists m :: ColumnName(m) && m != name && LeadsWith(acc.t, m)
  }

  predicate NameAbsent(name: string, fields: seq<Field>) {
    forall i :: 0 <= i < |fields| ==> fields[i].name != name && ColumnName(fields[i].name)
  }

  lemma OtherIsNot(acc: Accumulated, name: string)
    requires ColumnName(name) && LeadsWithOther(acc, name)
    ensures acc.Text? ==> !LeadsWith(acc.t, name)
  {
    if acc.Text? && LeadsWith(acc.t, name) {
      var m :| ColumnName(m) && m != name && LeadsWith(acc.t, m);
      LeadUnique(acc.t, m, name);
    }
  }

  /** Once the first assignment is lost, no later field brings it back. */
  lemma {:induction false} StaysLost(acc: Accumulated, d: nat, fields: seq<Field>, name: string)
    requires LeadsWithOther(acc, name) && NameAbsent(name, fields)
    ensures LeadsWithOther(Update(acc, d, fields), name)
    decreases |fields|
  {
    if fields != [] && !acc.Undefined? {
      StepStaysLost(acc, d, fields[0], name);
      StaysLost(UpdateStep(acc, d, fields[0]), if fields[0].changed then 1 else (d + 1) % RING_SIZE, fields[1..], name);
    }
  }

  lemma ItemLeads(f: Field, more: string)
    requires ColumnName(f.name) && f.value.Some?
    ensures LeadsWith(Fit(Item(f)), f.name) && LeadsWith(Fit(Fit(Item(f)) + more), f.name)
  {
    LeadKept(Item(f), "", f.name);
    LeadKept(Fit(Item(f)), more, f.name);
  }

  lemma StepStaysLost(acc: Accumulated, d: nat, f: Field, name: string)
    requires LeadsWithOther(acc, name) && f.name != name && ColumnName(f.name)
    ensures LeadsWithOther(UpdateStep(acc, d, f), name)
  {
    if f.changed && f.value.Some? {
      ItemLeads(f, ", " + Fit(Item(f)));
      assert Fit(Item(f)) + (", " + Fit(Item(f))) == Fit(Item(f)) + ", " + Fit(Item(f));
      if acc.Text? && d == 1 {
        var m :| ColumnName(m) && m != name && LeadsWith(acc.t, m);
        LeadKept(acc.t, ", " + Fit(Item(f)), m);
        assert acc.t + (", " + Fit(Item(f))) == acc.t + ", " + Fit(Item(f));
      } else if acc.Text? && d != 0 && d != 2 {
        var m :| ColumnName(m) && m != name && LeadsWith(acc.t, m);
        LeadKept(acc.t, ", " + Fit(Item(f)), m);
        assert acc.t + (", " + Fit(Item(f))) == acc.t + ", " + Fit(Item(f));
      }
    }
  }

  /** With a text that starts with `name`: in step it grows by the plain join, out of step that start is lost. */
  lemma {:induction false} UpdateFrom(t: string, d: nat, fields: seq<Field>, name: string)
    requires ColumnName(name) && LeadsWith(t, name) && NameAbsent(name, fields) && d < RING_SIZE && |t| < BUF_SIZE
    ensures AlignedFrom(d, fields) ==> Update(Text(t), d, fields) == Text(Fit(JoinMore(t, Items(fields))))
    ensures !AlignedFrom(d, fields) ==> LeadsWithOther(Update(Text(t), d, fields), name)
    decreases |fields|
  {
    if fields == [] {
      return;
    }
    var f, rest := fields[0], fields[1..];
    if !f.changed {
      UpdateFrom(t, (d + 1) % RING_SIZE, rest, name);
      assert Items(fields) == Items(rest);
    } else if f.value.Some? && d == 1 {
      var more := ", " + Fit(Item(f));
      assert t + more == t + ", " + Fit(Item(f));
      LeadKept(t, more, name);
      UpdateFrom(Fit(t + more), 1, rest, name);
      FitItem(t, Item(f), Items(rest));
      assert Items(fields) == [Item(f)] + Items(rest);
    } else {
      var acc := UpdateStep(Text(t), d, f);
      if f.value.Some? {
        ItemLeads(f, ", " + Fit(Item(f)));
        assert Fit(Item(f)) + (", " + Fit(Item(f))) == Fit(Item(f)) + ", " + Fit(Item(f));
      }
      StaysLost(acc, 1, rest, name);
    }
  }

  /** Putting a field in front shifts the others by one and adds its own gap. */
  lemma GapsShift(f: Field, rest: seq<Field>)
    ensures AllValued([f] + rest) <==> (f.changed ==> f.value.Some?) && AllValued(rest)
    ensures EvenGaps([f] + rest) <==>
            EvenGaps(rest) && (f.changed ==> forall j: nat :: FirstChanged(rest, j) ==> j % RING_SIZE == 0)
  {
    hide AllValued, FirstChanged;
    var all := [f] + rest;
    ValuedShift(f, rest);
    forall i: nat, j: nat ensures Neighbours(all, i + 1, j + 1) <==> Neighbours(rest, i, j) {
      NeighboursShift(f, rest, i, j);
    }
    forall j: nat ensures Neighbours(all, 0, j + 1) <==> f.changed && FirstChanged(rest, j) {
      FirstNeighbour(f, rest, j);
    }
    if EvenGaps(all) {
      forall i: nat, j: nat | Neighbours(rest, i, j) ensures (j - i - 1) % RING_SIZE == 0 {
        assert Neighbours(all, i + 1, j + 1);
      }
      forall j: nat | f.changed && FirstChanged(rest, j) ensures j % RING_SIZE == 0 {
        assert Neighbours(all, 0, j + 1);
      }
    }
    if EvenGaps(rest) && (f.changed ==> forall j: nat :: FirstChanged(rest, j) ==> j % RING_SIZE == 0) {
      forall i: nat, j: nat | Neighbours(all, i, j) ensures (j - i - 1) % RING_SIZE == 0 {
        if i == 0 {
          assert FirstChanged(rest, j - 1);
        } else {
          assert Neighbours(rest, i - 1, j - 1);
        }
      }
    }
  }

  lemma ValuedShift(f: Field, rest: seq<Field>)
    ensures AllValued([f] + rest) <==> (f.changed ==> f.value.Some?) && AllValued(rest)
  {
    var all := [f] + rest;
    if AllValued(all) {
      assert all[0] == f;
      assert forall i :: 0 <= i < |rest| ==> rest[i] == all[i + 1];
    }
  }

  lemma NeighboursShift(f: Field, rest: seq<Field>, i: nat, j: nat)
    ensures Neighbours([f] + rest, i + 1, j + 1) <==> Neighbours(rest, i, j)
  {
    var all := [f] + rest;
    if Neighbours(all, i + 1, j + 1) {
      forall k | i < k < j ensures !rest[k].changed {
        assert !all[k + 1].changed;
      }
    }
  }

  lemma FirstNeighbour(f: Field, rest: seq<Field>, j: nat)
    ensures Neighbours([f] + rest, 0, j + 1) <==> f.changed && FirstChanged(rest, j)
  {
    var all := [f] + rest;
    if Neighbours(all, 0, j + 1) {
      forall k | 0 <= k < j ensures !rest[k].changed {
        assert !all[k + 1].changed;
      }
    }
  }

  lemma FirstChangedShift(f: Field, rest: seq<Field>, j: nat)
    ensures FirstChanged([f] + rest, j + 1) <==> !f.changed && FirstChanged(rest, j)
    ensures FirstChanged([f] + rest, 0) <==> f.changed
  {
    var all := [f] + rest;
    if FirstChanged(all, j + 1) {
      assert !all[0].changed;
      forall k | 0 <= k < j ensures !rest[k].changed {
        assert !all[k + 1].changed;
      }
    }
  }

  /** The scan along the ring is the condition on gaps, plus one on where the first changed field lies. */
  lemma {:induction false} AlignedIsGaps(d: nat, fields: seq<Field>)
    requires d < RING_SIZE
    ensures AlignedFrom(d, fields) <==>
            GapsOfThree(fields) && forall j: nat :: FirstChanged(fields, j) ==> (d + j) % RING_SIZE == 1
    decreases |fields|
  {
    if fields != [] {
      var f, rest := fields[0], fields[1..];
      assert fields == [f] + rest;
      GapsShift(f, rest);
      AlignedIsGaps(if f.changed then 1 else (d + 1) % RING_SIZE, rest);
      forall j: nat ensures FirstChanged(fields, j + 1) <==> !f.changed && FirstChanged(rest, j) {
        FirstChangedShift(f, rest, j);
      }
      FirstChangedShift(f, rest, 0);
      if f.changed {
        AlignedAfter(d, fields, f, rest);
      } else {
        SkippedAligned(d, fields, f, rest);
      }
    }
  }

  lemma AlignedAfter(d: nat, fields: seq<Field>, f: Field, rest: seq<Field>)
    requires d < RING_SIZE && fields != [] && f == fields[0] && rest == fields[1..] && f.changed
    requires FirstChanged(fields, 0)
    requires GapsOfThree(fields) <==> f.value.Some? && GapsOfThree(rest) &&
                                      forall j: nat :: FirstChanged(rest, j) ==> j % RING_SIZE == 0
    requires AlignedFrom(1, rest) <==>
             GapsOfThree(rest) && forall j: nat :: FirstChanged(rest, j) ==> (1 + j) % RING_SIZE == 1
    ensures AlignedFrom(d, fields) <==>
            GapsOfThree(fields) && forall j: nat :: FirstChanged(fields, j) ==> (d + j) % RING_SIZE == 1
  {
    assert forall j: nat :: FirstChanged(fields, j) ==> j == 0;
    assert forall j: nat :: (1 + j) % RING_SIZE == 1 <==> j % RING_SIZE == 0;
  }

  lemma RingShift(d: nat, j: nat)
    ensures ((d + 1) % RING_SIZE + j) % RING_SIZE == (d + (j + 1)) % RING_SIZE
  {
  }

  lemma SkippedAligned(d: nat, fields: seq<Field>, f: Field, rest: seq<Field>)
    requires d < RING_SIZE && fields != [] && f == fields[0] && rest == fields[1..] && !f.changed
    requires !FirstChanged(fields, 0) && forall j: nat :: FirstChanged(fields, j + 1) <==> FirstChanged(rest, j)
    requires GapsOfThree(fields) <==> GapsOfThree(rest)
    requires AlignedFrom((d + 1) % RING_SIZE, rest) <==>
             GapsOfThree(rest) && forall j: nat :: FirstChanged(rest, j) ==> ((d + 1) % RING_SIZE + j) % RING_SIZE == 1
    ensures AlignedFrom(d, fields) <==>
            GapsOfThree(fields) && forall j: nat :: FirstChanged(fields, j) ==> (d + j) % RING_SIZE == 1
  {
    hide FirstChanged, GapsOfThree;
    if forall j: nat :: FirstChanged(rest, j) ==> ((d + 1) % RING_SIZE + j) % RING_SIZE == 1 {
      forall j: nat | FirstChanged(fields, j) ensures (d + j) % RING_SIZE == 1 {
        assert j > 0 && FirstChanged(fields, (j - 1) + 1);
        assert FirstChanged(rest, j - 1);
        RingShift(d, j - 1);
      }
    }
    if forall j: nat :: FirstChanged(fields, j) ==> (d + j) % RING_SIZE == 1 {
      forall j: nat | FirstChanged(rest, j) ensures ((d + 1) % RING_SIZE + j) % RING_SIZE == 1 {
        assert FirstChanged(fields, j + 1);
        RingShift(d, j);
      }
    }
  }

  /** The SET clause an update is meant to have. */
  ghost predicate Correct(fields: seq<Field>) {
    AllValued(fields) && Update(NoText, 0, fields) == Text(Fit(Join(Items(fields))))
  }

  /**
   An update with a changed field formats the plain join of the changed assignments exactly when every
   changed field has a value and each run of unchanged fields between two changed ones has a length that
   divides by three. Otherwise the text is undefined, or missing, or has lost the first assignment.
   */
  lemma {:induction false} UpdateExact(d: nat, fields: seq<Field>, j: nat)
    requires Columns(fields) && FirstChanged(fields, j)
    ensures Correct(fields) <==> GapsOfThree(fields)
    ensures !GapsOfThree(fields) ==> LeadsWithOther(Update(NoText, d, fields), fields[j].name)
    decreases |fields|
  {
    StartAnywhere(d, 0, fields);
    var f, rest := fields[0], fields[1..];
    assert fields == [f] + rest;
    GapsShift(f, rest);
    if !f.changed {
      FirstChangedShift(f, rest, j - 1);
      UpdateExact(1, rest, j - 1);
      StartAnywhere((d + 1) % RING_SIZE, 0, rest);
      StartAnywhere(1, 0, rest);
      assert Items(fields) == Items(rest);
    } else {
      assert j == 0;
      FirstIsChanged(f, rest);
    }
  }

  lemma RestAbsent(f: Field, rest: seq<Field>)
    requires Columns([f] + rest)
    ensures ColumnName(f.name) && NameAbsent(f.name, rest)
  {
    var fields := [f] + rest;
    assert fields[0] == f && ColumnName(fields[0].name);
    forall i | 0 <= i < |rest| ensures rest[i].name != f.name && ColumnName(rest[i].name) {
      assert fields[i + 1] == rest[i] && fields[i + 1].name != fields[0].name;
    }
  }

  lemma AlignedRest(f: Field, rest: seq<Field>)
    requires f.changed && f.value.Some?
    ensures AlignedFrom(1, rest) <==> GapsOfThree([f] + rest)
  {
    GapsShift(f, rest);
    AlignedIsGaps(1, rest);
    assert forall j: nat :: (1 + j) % RING_SIZE == 1 <==> j % RING_SIZE == 0;
  }

  lemma FirstIsChanged(f: Field, rest: seq<Field>)
    requires Columns([f] + rest) && f.changed
    ensures Correct([f] + rest) <==> GapsOfThree([f] + rest)
    ensures !GapsOfThree([f] + rest) ==> LeadsWithOther(Update(NoText, 0, [f] + rest), f.name)
  {
    hide AlignedFrom, EvenGaps;
    var fields := [f] + rest;
    assert fields[0] == f && fields[1..] == rest;
    RestAbsent(f, rest);
    if f.value.Some? {
      var t := Fit(Item(f));
      AlignedRest(f, rest);
      LeadKept(Item(f), "", f.name);
      UpdateFrom(t, 1, rest, f.name);
      FitJoin(Item(f), Items(rest));
      assert Items(fields) == [Item(f)] + Items(rest);
      JoinLeads(Item(f), Items(rest), f.name);
      if !GapsOfThree(fields) {
        OtherIsNot(Update(NoText, 0, fields), f.name);
      }
    } else {
      StaysLost(NoText, 1, rest, f.name);
    }
  }

  lemma JoinLeads(t: string, items: seq<string>, name: string)
    requires ColumnName(name) && LeadsWith(t, name)
    ensures LeadsWith(Fit(JoinMore(t, items)), name)
  {
  }

  /** Nothing changed: there is no text, and `updateRecord` reports failure. */
  lemma {:induction false} NothingChanged(d: nat, fields: seq<Field>)
    requires forall i :: 0 <= i < |fields| ==> !fields[i].changed
    ensures Update(NoText, d, fields) == NoText
    decreases |fields|
  {
    if fields != [] {
      NothingChanged((d + 1) % RING_SIZE, fields[1..]);
    }
  }

  /** Columns one and four changed: the second assignment overwrites the first and stands twice. */
  lemma TwoBetween()
    ensures var a, b := Field("a", true, Some("1")), Field("b", true, Some("2"));
            var x, y := Field("x", false, Some("0")), Field("y", false, Some("0"));
            Update(NoText, 0, [a, x, y, b]) == Text("b=2, b=2")
  {
    var a, b := Field("a", true, Some("1")), Field("b", true, Some("2"));
    var x, y := Field("x", false, Some("0")), Field("y", false, Some("0"));
    assert [a, x, y, b][1..] == [x, y, b] && [x, y, b][1..] == [y, b] && [y, b][1..] == [b] && [b][1..] == [];
    assert Fit(Item(b)) == "b=2";
    assert Update(Text("a=1"), 0, [b]) == Text("b=2, b=2");
    assert Update(Text("a=1"), 2, [y, b]) == Update(Text("a=1"), 0, [b]);
    assert Update(Text("a=1"), 1, [x, y, b]) == Update(Text("a=1"), 2, [y, b]);
    assert Fit(Item(a)) == "a=1";
  }

  /** Columns one and three changed: the destination is the text being copied. */
  lemma OneBetween()
    ensures var a, b := Field("a", true, Some("1")), Field("b", true, Some("2"));
            Update(NoText, 0, [a, Field("x", false, Some("0")), b]) == Undefined
  {
    var a, b, x := Field("a", true, Some("1")), Field("b", true, Some("2")), Field("x", false, Some("0"));
    assert [a, x, b][1..] == [x, b] && [x, b][1..] == [b];
    assert Update(Text("a=1"), 2, [b]) == Undefined;
    assert Update(Text("a=1"), 1, [x, b]) == Update(Text("a=1"), 2, [b]);
    assert Fit(Item(a)) == "a=1";
  }
}
