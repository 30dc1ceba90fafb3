/** Tables keyed by their `AUTO_INCREMENT` primary key. A `SELECT` without
    `ORDER BY` is taken to return rows in primary-key order (the clustered
    index order of an InnoDB table). */
module Tables {
  import opened Wrappers

  /** The smallest key of a non-empty table. */
  function Least(keys: set<int>): (k: int)
    requires keys != {}
    ensures k in keys && forall j :: j in keys ==> k <= j
  {
    LeastExists(keys);
    var k :| k in keys && forall j :: j in keys ==> k <= j;
    k
  }

  lemma {:induction false} LeastOf(keys: set<int>) returns (least: int)
    requires keys != {}
    ensures least in keys && forall j :: j in keys ==> least <= j
    decreases |keys|
  {
    HasMember(keys);
    var x :| x in keys;
    var others := keys - {x};
    if others == {} {
      least := x;
      forall j | j in keys
        ensures x <= j
      {
        assert j !in others;
      }
    } else {
      var k := LeastOf(others);
      least := if x < k then x else k;
      forall j | j in keys
        ensures least <= j
      {
        if j != x {
          assert j in others;
        }
      }
    }
  }

  lemma LeastExists(keys: set<int>)
    requires keys != {}
    ensures exists k :: k in keys && forall j :: j in keys ==> k <= j
  {
    var least := LeastOf(keys);
  }

  lemma HasMember(keys: set<int>)
    requires keys != {}
    ensures exists x :: x in keys
  {
    if forall x :: x !in keys {
      EmptyIfNoMember(keys);
    }
  }

  lemma EmptyIfNoMember(keys: set<int>)
    requires forall x :: x !in keys
    ensures keys == {}
  {
    assert forall x :: x in keys <==> x in {};
  }

  /** The keys in ascending order. */
  function Ascending(keys: set<int>): (s: seq<int>)
    ensures forall k :: k in keys <==> k in s
    ensures |s| == |keys|
    ensures forall i, j :: 0 <= i < j < |s| ==> s[i] < s[j]
    decreases |keys|
  {
    if keys == {} then []
    else
      var k := Least(keys);
      var rest := Ascending(keys - {k});
      LeastFirst(k, keys, rest);
      [k] + rest
  }

  /** The least key ahead of the others in ascending order keeps the order. */
  lemma LeastFirst(k: int, keys: set<int>, rest: seq<int>)
    requires forall j :: j in keys ==> k <= j
    requires forall j :: j in keys - {k} <==> j in rest
    requires forall i, j :: 0 <= i < j < |rest| ==> rest[i] < rest[j]
    ensures forall i, j :: 0 <= i < j < |[k] + rest| ==> ([k] + rest)[i] < ([k] + rest)[j]
  {
    forall i, j | 0 <= i < j < |[k] + rest|
      ensures ([k] + rest)[i] < ([k] + rest)[j]
    {
      assert ([k] + rest)[j] == rest[j - 1] && rest[j - 1] in rest;
      if i > 0 {
        assert ([k] + rest)[i] == rest[i - 1];
      }
    }
  }

  /** The keys of the rows `keep` keeps. */
  function KeysWhere<R(!new)>(rows: map<int, R>, keep: R -> bool): set<int>
  {
    set k | k in rows && keep(rows[k])
  }

  /** `SELECT * FROM t WHERE keep(row)`: the kept rows in key order, one
      entry per kept row. */
  function Select<R(!new)>(rows: map<int, R>, keep: R -> bool): (r: seq<R>)
    ensures forall x :: x in r <==> exists k :: k in rows && rows[k] == x && keep(x)
    ensures |r| == |KeysWhere(rows, keep)|
  {
    SelectCount(rows, keep);
    Kept(Ascending(rows.Keys), rows, keep)
  }

  /** Key order lists each key once, so the selection counts the kept keys. */
  lemma SelectCount<R(!new)>(rows: map<int, R>, keep: R -> bool)
    ensures |Kept(Ascending(rows.Keys), rows, keep)| == |KeysWhere(rows, keep)|
  {
    var keys := Ascending(rows.Keys);
    KeptCount(keys, rows, keep);
    ListedKeys(keys, rows, keep);
  }

  /** Keys that list the table exactly select the kept keys. */
  lemma ListedKeys<R(!new)>(keys: seq<int>, rows: map<int, R>, keep: R -> bool)
    requires forall k :: k in rows <==> k in keys
    ensures (set k | k in keys && k in rows && keep(rows[k])) == KeysWhere(rows, keep)
  {
    var listed := set k | k in keys && k in rows && keep(rows[k]);
    forall k | k in KeysWhere(rows, keep)
      ensures k in listed
    {
      assert k in keys;
    }
  }

  /** Over distinct keys, the selection has one entry per kept key. */
  lemma {:induction false} KeptCount<R(!new)>(keys: seq<int>, rows: map<int, R>, keep: R -> bool)
    requires forall i :: 0 <= i < |keys| ==> keys[i] in rows
    requires forall i, j :: 0 <= i < j < |keys| ==> keys[i] != keys[j]
    ensures |Kept(keys, rows, keep)| == |set k | k in keys && k in rows && keep(rows[k])|
    decreases |keys|
  {
    if keys != [] {
      var tail := keys[1..];
      KeptCount(tail, rows, keep);
      forall i | 0 <= i < |tail|
        ensures tail[i] != keys[0]
      {
        assert tail[i] == keys[i + 1];
      }
      KeptKeysSplit(keys, rows, keep);
    }
  }

  /** The kept keys of a key list: its head when kept, and those of its tail. */
  lemma KeptKeysSplit<R(!new)>(keys: seq<int>, rows: map<int, R>, keep: R -> bool)
    requires keys != [] && keys[0] in rows && keys[0] !in keys[1..]
    ensures var rest := set k | k in keys[1..] && k in rows && keep(rows[k]);
            && keys[0] !in rest
            && (set k | k in keys && k in rows && keep(rows[k])) ==
               (if keep(rows[keys[0]]) then {keys[0]} + rest else rest)
  {
    assert forall k :: k in keys <==> k == keys[0] || k in keys[1..];
  }

  function Kept<R(!new)>(keys: seq<int>, rows: map<int, R>, keep: R -> bool): (r: seq<R>)
    requires forall i :: 0 <= i < |keys| ==> keys[i] in rows
    ensures forall x :: x in r <==> exists i :: 0 <= i < |keys| && rows[keys[i]] == x && keep(x)
    decreases |keys|
  {
    if keys == [] then []
    else
      var rest := Kept(keys[1..], rows, keep);
      assert forall i :: 0 < i < |keys| ==> keys[i] == keys[1..][i - 1];
      var row := rows[keys[0]];
      if keep(row) then [row] + rest else rest
  }

  /** A key above every key of the table comes last in key order. */
  lemma {:induction false} AscendingWithMax(keys: set<int>, k: int)
    requires forall j :: j in keys ==> j < k
    ensures Ascending(keys + {k}) == Ascending(keys) + [k]
    decreases |keys|
  {
    var all := keys + {k};
    if keys == {} {
      assert all == {k};
      var l := Least(all);
      assert l == k;
      assert all - {l} == {};
      assert Ascending(all) == [k] + Ascending({});
      assert Ascending(keys) == [];
    } else {
      var m := Least(keys);
      var l := Least(all);
      assert m in all && l <= m;
      assert l in keys;
      assert l == m;
      var rest := keys - {m};
      assert all - {m} == rest + {k};
      assert Ascending(all) == [m] + Ascending(rest + {k});
      assert Ascending(keys) == [m] + Ascending(rest);
      AscendingWithMax(rest, k);
      ConcatAssociative([m], Ascending(rest), [k]);
    }
  }

  lemma ConcatAssociative<T>(a: seq<T>, b: seq<T>, c: seq<T>)
    ensures a + (b + c) == (a + b) + c
  {
  }

  lemma {:induction false} KeptAppend<R(!new)>(a: seq<int>, b: seq<int>, rows: map<int, R>, keep: R -> bool)
    requires forall i :: 0 <= i < |a| ==> a[i] in rows
    requires forall i :: 0 <= i < |b| ==> b[i] in rows
    ensures Kept(a + b, rows, keep) == Kept(a, rows, keep) + Kept(b, rows, keep)
    decreases |a|
  {
    if a != [] {
      assert (a + b)[1..] == a[1..] + b;
      KeptAppend(a[1..], b, rows, keep);
    } else {
      assert a + b == b;
    }
  }

  lemma {:induction false} KeptSameRows<R(!new)>(keys: seq<int>, rows: map<int, R>, other: map<int, R>, keep: R -> bool)
    requires forall i :: 0 <= i < |keys| ==> keys[i] in rows && keys[i] in other && other[keys[i]] == rows[keys[i]]
    ensures Kept(keys, other, keep) == Kept(keys, rows, keep)
    decreases |keys|
  {
    if keys != [] {
      KeptSameRows(keys[1..], rows, other, keep);
    }
  }

  /** Inserting a row under a key above every existing key (an
      `AUTO_INCREMENT` insert) appends it to every selection that keeps it
      and leaves the others as they were. */
  lemma SelectAfterInsert<R(!new)>(rows: map<int, R>, k: int, x: R, keep: R -> bool)
    requires forall j :: j in rows ==> j < k
    ensures Select(rows[k := x], keep) == Select(rows, keep) + (if keep(x) then [x] else [])
  {
    var after := rows[k := x];
    assert after.Keys == rows.Keys + {k};
    AscendingWithMax(rows.Keys, k);
    var keys := Ascending(rows.Keys);
    assert Ascending(after.Keys) == keys + [k];
    KeptAfterInsert(keys, rows, k, x, keep);
  }

  lemma KeptAfterInsert<R(!new)>(keys: seq<int>, rows: map<int, R>, k: int, x: R, keep: R -> bool)
    requires forall i :: 0 <= i < |keys| ==> keys[i] in rows && keys[i] != k
    ensures Kept(keys + [k], rows[k := x], keep) == Kept(keys, rows, keep) + (if keep(x) then [x] else [])
  {
    var after := rows[k := x];
    KeptAppend(keys, [k], after, keep);
    KeptSameRows(keys, rows, after, keep);
    assert [k][1..] == [];
    assert Kept([k], after, keep) == (if keep(x) then [x] else []);
  }

  /** When every row carries its own key, a selection lists the rows in
      ascending key order (`ORDER BY id ASC`). */
  lemma SelectInKeyOrder<R(!new)>(rows: map<int, R>, keep: R -> bool, key: R -> int)
    requires forall k :: k in rows ==> key(rows[k]) == k
    ensures forall i, j :: 0 <= i < j < |Select(rows, keep)| ==> key(Select(rows, keep)[i]) < key(Select(rows, keep)[j])
  {
    KeptInKeyOrder(Ascending(rows.Keys), rows, keep, key);
  }

  lemma {:induction false} KeptInKeyOrder<R(!new)>(keys: seq<int>, rows: map<int, R>, keep: R -> bool, key: R -> int)
    requires forall i :: 0 <= i < |keys| ==> keys[i] in rows
    requires forall i, j :: 0 <= i < j < |keys| ==> keys[i] < keys[j]
    requires forall k :: k in rows ==> key(rows[k]) == k
    ensures forall i, j :: 0 <= i < j < |Kept(keys, rows, keep)| ==> key(Kept(keys, rows, keep)[i]) < key(Kept(keys, rows, keep)[j])
    decreases |keys|
  {
    if keys != [] {
      var rest := Kept(keys[1..], rows, keep);
      KeptInKeyOrder(keys[1..], rows, keep, key);
      forall x | x in rest
        ensures keys[0] < key(x)
      {
        var i :| 0 <= i < |keys[1..]| && rows[keys[1..][i]] == x && keep(x);
        assert keys[1..][i] == keys[i + 1];
      }
      var row := rows[keys[0]];
      if keep(row) {
        var all := [row] + rest;
        forall i, j | 0 <= i < j < |all|
          ensures key(all[i]) < key(all[j])
        {
          if i == 0 {
            assert all[j] == rest[j - 1] && rest[j - 1] in rest;
          } else {
            assert all[i] == rest[i - 1] && all[j] == rest[j - 1];
          }
        }
      }
    }
  }

  /** `SELECT * FROM t WHERE id = ?` answered as `null` when no row comes
      back and as `rows[0]` otherwise: the row under that key. */
  function Lookup<R>(rows: map<int, R>, id: int): (r: Option<R>)
    ensures r.None? <==> id !in rows
    ensures r.Some? ==> r.value == rows[id]
  {
    if id in rows then Some(rows[id]) else None
  }

  /** `SELECT * FROM t WHERE keep(row)` answered as `rows.length ? rows :
      null`: `null` exactly when no row is kept. */
  function Find<R(!new)>(rows: map<int, R>, keep: R -> bool): (r: Option<seq<R>>)
    ensures r.None? <==> forall k :: k in rows ==> !keep(rows[k])
    ensures r.Some? ==> forall x :: x in r.value <==> exists k :: k in rows && rows[k] == x && keep(x)
    ensures r.Some? ==> r.value != []
    ensures (if r.Some? then |r.value| else 0) == |KeysWhere(rows, keep)|
  {
    var s := Select(rows, keep);
    assert forall k :: k in rows && keep(rows[k]) ==> rows[k] in s;
    if s == [] then
      None
    else
      assert s[0] in s;
      Some(s)
  }

  /** `rows.length ? rows : null`: the finders answer `null` when nothing
      matched. */
  function OrNull<R>(rows: seq<R>): Option<seq<R>>
  {
    if rows == [] then None else Some(rows)
  }
}
