/** The sparse `UPDATE` that every model's `update(updateData)` builds: for
    each updatable column, in a fixed order, a key of `updateData` that is
    not `undefined` pushes `"column = ?"` onto `fields` and its value onto
    `values`; with no field the update throws, otherwise the row id is
    pushed as the last value (for `WHERE id = ?`). The hand-unrolled `if`
    blocks of each model are the iterations of `BuildUpdate`'s loop over
    that model's column list. */
module UpdateBuilder {
  import opened Json
  import opened Wrappers

  const NoFields := "No hay campos para actualizar"

  /** The `fields` and `values` arrays handed to `pool.execute`. */
  datatype Statement = Statement(fields: seq<string>, values: seq<Value>)

  function Clause(column: string): string
  {
    column + " = ?"
  }

  /** Distinct columns give distinct clauses. */
  lemma ClauseInjective(a: string, b: string)
    requires Clause(a) == Clause(b)
    ensures a == b
  {
    assert a == Clause(a)[..|a|];
    assert b == Clause(b)[..|b|];
  }

  /** The columns of `columns` that `body` defines, in column order. */
  function Written(columns: seq<string>, body: Object): (w: seq<string>)
    ensures forall c :: c in w <==> c in columns && c in body
    ensures |w| <= |columns|
    decreases |columns|
  {
    if columns == [] then []
    else
      var last := columns[|columns| - 1];
      var before := Written(columns[..|columns| - 1], body);
      assert forall c :: c in columns <==> c in columns[..|columns| - 1] || c == last;
      if last in body then before + [last] else before
  }

  function Clauses(w: seq<string>): (r: seq<string>)
    ensures |r| == |w| && forall i :: 0 <= i < |w| ==> r[i] == Clause(w[i])
  {
    seq(|w|, i requires 0 <= i < |w| => Clause(w[i]))
  }

  function ValuesOf(w: seq<string>, body: Object): (r: seq<Value>)
    requires forall c :: c in w ==> c in body
    ensures |r| == |w| && forall i :: 0 <= i < |w| ==> r[i] == body[w[i]]
  {
    seq(|w|, i requires 0 <= i < |w| => body[w[i]])
  }

  /** The statement the `if` blocks produce, or the error they throw. */
  function Build(columns: seq<string>, body: Object, id: Value): Result<Statement, string>
  {
    var w := Written(columns, body);
    if w == [] then Failure(NoFields)
    else Success(Statement(Clauses(w), ValuesOf(w, body) + [id]))
  }

  /** Pushes one clause and one value per defined column, then the id. */
  method BuildUpdate(columns: seq<string>, body: Object, id: Value) returns (r: Result<Statement, string>)
    ensures r == Build(columns, body, id)
  {
    var fields: seq<string> := [];
    var values: seq<Value> := [];
    for k := 0 to |columns|
      invariant fields == Clauses(Written(columns[..k], body))
      invariant values == ValuesOf(Written(columns[..k], body), body)
    {
      WrittenStep(columns, body, k);
      if columns[k] in body {
        AppendWritten(Written(columns[..k], body), columns[k], body);
        fields := fields + [Clause(columns[k])];
        values := values + [body[columns[k]]];
      }
    }
    assert columns[..|columns|] == columns;
    if |fields| == 0 {
      return Failure(NoFields);
    }
    values := values + [id];
    r := Success(Statement(fields, values));
  }

  /** One more column extends the written list by that column when the
      body defines it. */
  lemma WrittenStep(columns: seq<string>, body: Object, k: nat)
    requires k < |columns|
    ensures Written(columns[..k + 1], body) ==
              Written(columns[..k], body) + (if columns[k] in body then [columns[k]] else [])
  {
    assert columns[..k + 1][..k] == columns[..k];
  }

  /** A defined column appended to the list appends its clause and its value. */
  lemma AppendWritten(w: seq<string>, column: string, body: Object)
    requires forall c :: c in w ==> c in body
    requires column in body
    ensures Clauses(w + [column]) == Clauses(w) + [Clause(column)]
    ensures ValuesOf(w + [column], body) == ValuesOf(w, body) + [body[column]]
  {
  }

  /** The update throws exactly when `body` defines none of the columns. */
  lemma BuildFails(columns: seq<string>, body: Object, id: Value)
    ensures Build(columns, body, id).Failure? <==> forall c :: c in columns ==> c !in body
    ensures Build(columns, body, id).Failure? ==> Build(columns, body, id).error == NoFields
  {
    var w := Written(columns, body);
    if w != [] {
      assert w[0] in w;
    }
  }

  /** A successful statement writes one `column = ?` per defined column, in
      column order, binds each to the body's value, and ends with the id. */
  lemma BuildShape(columns: seq<string>, body: Object, id: Value)
    requires Build(columns, body, id).Success?
    ensures var st := Build(columns, body, id).value;
            var w := Written(columns, body);
            && |st.values| == |st.fields| + 1
            && st.values[|st.fields|] == id
            && (forall i :: 0 <= i < |st.fields| ==> st.fields[i] == Clause(w[i]) && st.values[i] == body[w[i]])
            && IsSubsequence(w, columns)
            && (forall c :: c in w <==> c in columns && c in body)
  {
    WrittenIsSubsequence(columns, body);
  }

  /** A column outside the list is never written, whatever the body holds. */
  lemma NeverWritten(columns: seq<string>, body: Object, id: Value, column: string)
    requires Build(columns, body, id).Success? && column !in columns
    ensures Clause(column) !in Build(columns, body, id).value.fields
  {
    var st := Build(columns, body, id).value;
    var w := Written(columns, body);
    forall k | 0 <= k < |st.fields|
      ensures st.fields[k] != Clause(column)
    {
      assert w[k] in w;
      if st.fields[k] == Clause(column) {
        ClauseInjective(w[k], column);
      }
    }
  }

  /** `a` can be obtained from `b` by deleting elements: order is kept. */
  predicate IsSubsequence(a: seq<string>, b: seq<string>)
    decreases |b|
  {
    if a == [] then true
    else if b == [] then false
    else if a[|a| - 1] == b[|b| - 1] then IsSubsequence(a[..|a| - 1], b[..|b| - 1])
    else IsSubsequence(a, b[..|b| - 1])
  }

  lemma {:induction false} WrittenIsSubsequence(columns: seq<string>, body: Object)
    ensures IsSubsequence(Written(columns, body), columns)
    decreases |columns|
  {
    if columns != [] {
      var init := columns[..|columns| - 1];
      WrittenIsSubsequence(init, body);
      var w := Written(columns, body);
      if columns[|columns| - 1] in body {
        assert w[..|w| - 1] == Written(init, body);
      } else {
        SubsequenceExtend(w, columns);
      }
    }
  }

  /** A subsequence of `b` without its last element is one of `b`. */
  lemma {:induction false} SubsequenceExtend(x: seq<string>, b: seq<string>)
    requires b != [] && IsSubsequence(x, b[..|b| - 1])
    ensures IsSubsequence(x, b)
    decreases |b|, 0
  {
    if x != [] && x[|x| - 1] == b[|b| - 1] {
      SubsequenceDropLast(x, b[..|b| - 1]);
    }
  }

  lemma {:induction false} SubsequenceDropLast(a: seq<string>, b: seq<string>)
    requires a != [] && IsSubsequence(a, b)
    ensures IsSubsequence(a[..|a| - 1], b)
    decreases |b|, 1
  {
    if a[|a| - 1] == b[|b| - 1] {
      SubsequenceExtend(a[..|a| - 1], b);
    } else {
      SubsequenceDropLast(a, b[..|b| - 1]);
      SubsequenceExtend(a[..|a| - 1], b);
    }
  }

  /** The row after `UPDATE ... SET <fields> WHERE id = ?`: the defined
      columns take the body's values, every other column keeps its value. */
  function Overwrite(row: Object, columns: seq<string>, body: Object): (r: Object)
    ensures r.Keys == row.Keys + (set c | c in columns && c in body)
    ensures forall c :: c in r ==> r[c] == if c in columns && c in body then body[c] else row[c]
  {
    map c | c in row.Keys + (set c | c in columns && c in body) ::
      if c in columns && c in body then body[c] else row[c]
  }

  /** The row change is the statement's: each written column gets the value
      bound to its clause, and no other column changes. */
  lemma OverwriteFollowsStatement(row: Object, columns: seq<string>, body: Object, id: Value)
    requires Build(columns, body, id).Success?
    ensures var st := Build(columns, body, id).value;
            var w := Written(columns, body);
            var r := Overwrite(row, columns, body);
            && (forall i :: 0 <= i < |w| ==> r[w[i]] == st.values[i])
            && (forall c :: c in row && c !in w ==> r[c] == row[c])
  {
  }
}
