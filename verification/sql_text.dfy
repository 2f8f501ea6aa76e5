/** Comma joins in buffers of bounded size: what `snprintf` keeps, and which field a text starts with. */
module SqlText {
  import opened Options

  /** sizeof of one formatting buffer. */
  const BUF_SIZE := 128 * 1024

  /** What `snprintf` leaves in such a buffer: all of the text but room for the terminator. */
  function Fit(s: string): (r: string)
    ensures r <= s && |r| < BUF_SIZE
  {
    if |s| < BUF_SIZE then s else s[..BUF_SIZE - 1]
  }

  function JoinMore(t: string, items: seq<string>): (r: string)
    ensures t <= r
    decreases |items|
  {
    if items == [] then t else JoinMore(t + ", " + items[0], items[1..])
  }

  /** `a, b, c`. */
  function Join(items: seq<string>): string {
    if items == [] then "" else JoinMore(items[0], items[1..])
  }

  /** Cutting the parts of a text before the whole is cut makes no difference. */
  lemma FitParts(a: string, sep: string, b: string)
    ensures Fit(Fit(a) + sep + b) == Fit(a + sep + b)
    ensures Fit(a + sep + Fit(b)) == Fit(a + sep + b)
  {
  }

  /** Cutting at every step of a join is cutting the full join once. */
  lemma {:induction false} FitJoin(t: string, items: seq<string>)
    ensures Fit(JoinMore(Fit(t), items)) == Fit(JoinMore(t, items))
    decreases |items|
  {
    if items != [] {
      var x := items[0];
      FitParts(t, ", ", x);
      FitJoin(t + ", " + x, items[1..]);
      FitJoin(Fit(t) + ", " + x, items[1..]);
    }
  }

  /** Cutting one item first makes no difference either. */
  lemma FitItem(t: string, item: string, items: seq<string>)
    ensures Fit(JoinMore(Fit(t + ", " + Fit(item)), items)) == Fit(JoinMore(t + ", " + item, items))
  {
    FitParts(t, ", ", item);
    FitJoin(t + ", " + Fit(item), items);
    FitJoin(t + ", " + item, items);
  }

  // ---------------------------------------------------------------- assignments

  /** A column of an update request: its name, whether it changed, and its value if it can be formatted. */
  datatype Field = Field(name: string, changed: bool, value: Option<string>)

  function Item(f: Field): string
    requires f.value.Some?
  {
    f.name + "=" + f.value.value
  }

  /** The assignments of the changed fields. */
  function Items(fields: seq<Field>): seq<string> {
    if fields == [] then []
    else (if fields[0].changed && fields[0].value.Some? then [Item(fields[0])] else []) + Items(fields[1..])
  }

  /** A column name: short enough for a buffer, and without the character that ends it in an assignment. */
  predicate ColumnName(name: string) {
    |name| + 1 < BUF_SIZE && '=' !in name
  }

  predicate LeadsWith(t: string, name: string) {
    name + "=" <= t
  }

  lemma LeadKept(t: string, more: string, name: string)
    requires ColumnName(name) && LeadsWith(t, name)
    ensures LeadsWith(Fit(t), name) && LeadsWith(t + more, name) && LeadsWith(Fit(t + more), name)
  {
  }

  lemma LongerHasEquals(t: string, a: string, b: string)
    requires LeadsWith(t, a) && LeadsWith(t, b) && |a| < |b|
    ensures '=' in b
  {
    assert t[|a|] == (a + "=")[|a|] && t[|a|] == (b + "=")[|a|];
    assert b[|a|] == '=';
  }

  /** A text starts with the assignment of at most one column. */
  lemma LeadUnique(t: string, a: string, b: string)
    requires ColumnName(a) && ColumnName(b) && LeadsWith(t, a) && LeadsWith(t, b)
    ensures a == b
  {
    assert t[..|a|] == a && t[..|b|] == b;
    if |a| < |b| {
      LongerHasEquals(t, a, b);
    } else if |b| < |a| {
      LongerHasEquals(t, b, a);
    }
  }
}
