/** One goal's rows of `goal_contributions`: the numbering rule
    (`IFNULL(MAX(nro_contribution), 0) + 1`), the lookups by number, the
    listing newest first, and the sum of the amounts that the goal's
    `monto_actual` must equal. Amounts are integers (cents). */
module GoalContributions {
  import opened Wrappers

  datatype Contribution = Contribution(goalId: int, nro: int, monto: int)

  /** `MAX(nro_contribution)` of the rows, `IFNULL`-ed to 0. */
  function MaxNro(cs: seq<Contribution>): (m: int)
    ensures cs == [] ==> m == 0
    ensures forall i :: 0 <= i < |cs| ==> cs[i].nro <= m
    ensures cs != [] ==> exists i :: 0 <= i < |cs| && cs[i].nro == m
    decreases |cs|
  {
    if cs == [] then 0
    else if |cs| == 1 then cs[0].nro
    else
      var rest := MaxNro(cs[1..]);
      assert forall i :: 1 <= i < |cs| ==> cs[i] == cs[1..][i - 1];
      if cs[0].nro >= rest then cs[0].nro else rest
  }

  /** The number `create` gives the next contribution of a goal. */
  function NextNro(cs: seq<Contribution>): (n: int)
    ensures cs == [] ==> n == 1
    ensures forall i :: 0 <= i < |cs| ==> cs[i].nro < n
    ensures cs != [] ==> exists i :: 0 <= i < |cs| && cs[i].nro == n - 1
  {
    MaxNro(cs) + 1
  }

  /** Rows in insertion order carry strictly increasing numbers. */
  predicate Ascending(cs: seq<Contribution>)
  {
    forall i, j :: 0 <= i < j < |cs| ==> cs[i].nro < cs[j].nro
  }

  predicate Descending(cs: seq<Contribution>)
  {
    forall i, j :: 0 <= i < j < |cs| ==> cs[i].nro > cs[j].nro
  }

  /** Every row belongs to goal `goalId` and has a number of at least 1. */
  predicate Tagged(cs: seq<Contribution>, goalId: int)
  {
    forall i :: 0 <= i < |cs| ==> cs[i].goalId == goalId && cs[i].nro >= 1
  }

  /** The sum of the amounts. */
  function Total(cs: seq<Contribution>): int
    decreases |cs|
  {
    if cs == [] then 0 else Total(cs[..|cs| - 1]) + cs[|cs| - 1].monto
  }

  /** `findByGoalAndNumber`: the row with that number, or null. */
  function FindByGoalAndNumber(cs: seq<Contribution>, nro: int): (r: Option<Contribution>)
    ensures r.Some? ==> r.value in cs && r.value.nro == nro
    ensures r.None? <==> forall i :: 0 <= i < |cs| ==> cs[i].nro != nro
    decreases |cs|
  {
    if cs == [] then None
    else if cs[0].nro == nro then Some(cs[0])
    else
      assert forall i :: 1 <= i < |cs| ==> cs[i] == cs[1..][i - 1];
      FindByGoalAndNumber(cs[1..], nro)
  }

  /** `DELETE ... WHERE goal_id = ? AND nro_contribution = ?`. */
  function Without(cs: seq<Contribution>, nro: int): (r: seq<Contribution>)
    ensures forall c :: c in r <==> c in cs && c.nro != nro
    ensures |r| <= |cs|
    decreases |cs|
  {
    if cs == [] then []
    else
      var rest := Without(cs[..|cs| - 1], nro);
      assert forall c :: c in cs <==> c in cs[..|cs| - 1] || c == cs[|cs| - 1];
      if cs[|cs| - 1].nro == nro then rest else rest + [cs[|cs| - 1]]
  }

  /** `findByContribution`: the rows ordered by number, highest first. */
  function FindByContribution(cs: seq<Contribution>): (r: seq<Contribution>)
    ensures |r| == |cs|
    ensures forall i :: 0 <= i < |cs| ==> r[i] == cs[|cs| - 1 - i]
    ensures Ascending(cs) ==> Descending(r)
  {
    seq(|cs|, i requires 0 <= i < |cs| => cs[|cs| - 1 - i])
  }

  // ---------------------------------------------------------------------
  // properties

  /** On rows in insertion order the listing is strictly descending, holds
      the same rows, and adds up to the same total. */
  lemma FindByContributionOrder(cs: seq<Contribution>)
    requires Ascending(cs)
    ensures Descending(FindByContribution(cs))
    ensures multiset(FindByContribution(cs)) == multiset(cs)
    ensures Total(FindByContribution(cs)) == Total(cs)
  {
    var r := FindByContribution(cs);
    ReverseMultiset(cs);
    TotalOfReverse(cs);
  }

  lemma {:induction false} ReverseMultiset(cs: seq<Contribution>)
    ensures multiset(FindByContribution(cs)) == multiset(cs)
    decreases |cs|
  {
    if cs != [] {
      var init := cs[..|cs| - 1];
      ReverseMultiset(init);
      assert FindByContribution(cs) == [cs[|cs| - 1]] + FindByContribution(init);
      assert cs == init + [cs[|cs| - 1]];
    }
  }

  /** The sum does not depend on the order of the rows. */
  lemma {:induction false} TotalOfReverse(cs: seq<Contribution>)
    ensures Total(FindByContribution(cs)) == Total(cs)
    decreases |cs|
  {
    if cs != [] {
      var init := cs[..|cs| - 1];
      TotalOfReverse(init);
      assert FindByContribution(cs) == [cs[|cs| - 1]] + FindByContribution(init);
      TotalCons(cs[|cs| - 1], FindByContribution(init));
    }
  }

  lemma {:induction false} TotalCons(c: Contribution, cs: seq<Contribution>)
    ensures Total([c] + cs) == c.monto + Total(cs)
    decreases |cs|
  {
    if cs != [] {
      var init := cs[..|cs| - 1];
      TotalCons(c, init);
      assert ([c] + cs)[..|cs|] == [c] + init;
    } else {
      assert [c] + cs == [c];
    }
  }

  lemma TotalAppend(cs: seq<Contribution>, c: Contribution)
    ensures Total(cs + [c]) == Total(cs) + c.monto
  {
    assert (cs + [c])[..|cs|] == cs;
  }

  /** Appending the numbered row keeps the rows ascending and tagged. */
  lemma AppendNext(cs: seq<Contribution>, goalId: int, monto: int)
    requires Ascending(cs) && Tagged(cs, goalId)
    ensures Ascending(cs + [Contribution(goalId, NextNro(cs), monto)])
    ensures Tagged(cs + [Contribution(goalId, NextNro(cs), monto)], goalId)
  {
    if cs != [] {
      assert cs[0].nro >= 1;
    }
  }

  /** Removing the rows with one number takes exactly that row's amount off
      the total, when numbers are unique, and keeps the order. */
  lemma {:induction false} TotalWithout(cs: seq<Contribution>, nro: int, c: Contribution)
    requires Ascending(cs)
    requires FindByGoalAndNumber(cs, nro) == Some(c)
    ensures Total(Without(cs, nro)) == Total(cs) - c.monto
    decreases |cs|
  {
    var init := cs[..|cs| - 1];
    var last := cs[|cs| - 1];
    if last.nro == nro {
      TotalWithoutLast(cs, nro, c);
    } else {
      TotalWithoutStep(cs, nro);
      FindInInit(cs, nro);
      AscendingInit(cs);
      TotalWithout(init, nro, c);
    }
  }

  lemma AscendingInit(cs: seq<Contribution>)
    requires Ascending(cs) && cs != []
    ensures Ascending(cs[..|cs| - 1])
  {
    var init := cs[..|cs| - 1];
    forall i, j | 0 <= i < j < |init|
      ensures init[i].nro < init[j].nro
    {
      assert init[i] == cs[i] && init[j] == cs[j];
    }
  }

  /** Keeping the last row adds its amount to the total of the rest. */
  lemma TotalWithoutStep(cs: seq<Contribution>, nro: int)
    requires cs != [] && cs[|cs| - 1].nro != nro
    ensures Total(Without(cs, nro)) == Total(Without(cs[..|cs| - 1], nro)) + cs[|cs| - 1].monto
  {
    var last := cs[|cs| - 1];
    assert Without(cs, nro) == Without(cs[..|cs| - 1], nro) + [last];
    TotalAppend(Without(cs[..|cs| - 1], nro), last);
  }

  /** The base case of `TotalWithout`: the number is the last row's. */
  lemma TotalWithoutLast(cs: seq<Contribution>, nro: int, c: Contribution)
    requires Ascending(cs) && cs != [] && cs[|cs| - 1].nro == nro
    requires FindByGoalAndNumber(cs, nro) == Some(c)
    ensures Total(Without(cs, nro)) == Total(cs) - c.monto
  {
    var init := cs[..|cs| - 1];
    assert Without(cs, nro) == Without(init, nro);
    assert forall i :: 0 <= i < |init| ==> init[i].nro != nro;
    WithoutAbsent(init, nro);
    FindLast(cs, nro);
  }

  lemma {:induction false} WithoutAbsent(cs: seq<Contribution>, nro: int)
    requires forall i :: 0 <= i < |cs| ==> cs[i].nro != nro
    ensures Without(cs, nro) == cs
    decreases |cs|
  {
    if cs != [] {
      WithoutAbsent(cs[..|cs| - 1], nro);
      assert cs[..|cs| - 1] + [cs[|cs| - 1]] == cs;
    }
  }

  /** With unique numbers, the row found is the one in the last place when
      the last row has that number. */
  lemma FindLast(cs: seq<Contribution>, nro: int)
    requires Ascending(cs) && cs != [] && cs[|cs| - 1].nro == nro
    ensures FindByGoalAndNumber(cs, nro) == Some(cs[|cs| - 1])
  {
    var r := FindByGoalAndNumber(cs, nro);
    var k :| 0 <= k < |cs| && cs[k] == r.value;
  }

  lemma FindInInit(cs: seq<Contribution>, nro: int)
    requires cs != [] && cs[|cs| - 1].nro != nro
    ensures FindByGoalAndNumber(cs, nro) == FindByGoalAndNumber(cs[..|cs| - 1], nro)
  {
    FindPrefix(cs, |cs| - 1, nro);
  }

  /** The search stops at the first row with the number, so rows after
      every match play no part. */
  lemma {:induction false} FindPrefix(cs: seq<Contribution>, k: nat, nro: int)
    requires k <= |cs|
    requires forall i :: k <= i < |cs| ==> cs[i].nro != nro
    ensures FindByGoalAndNumber(cs, nro) == FindByGoalAndNumber(cs[..k], nro)
    decreases |cs|
  {
    if cs != [] && k > 0 && cs[0].nro != nro {
      FindPrefix(cs[1..], k - 1, nro);
      assert cs[1..][..k - 1] == cs[..k][1..];
    } else if cs != [] && k == 0 {
      assert cs[..k] == [];
      assert forall i :: 0 <= i < |cs| ==> cs[i].nro != nro;
    }
  }

  lemma {:induction false} WithoutAscending(cs: seq<Contribution>, nro: int)
    requires Ascending(cs)
    ensures Ascending(Without(cs, nro))
    decreases |cs|
  {
    if cs != [] {
      var init := cs[..|cs| - 1];
      WithoutAscending(init, nro);
      var rest := Without(init, nro);
      var last := cs[|cs| - 1];
      if last.nro != nro {
        forall i | 0 <= i < |rest|
          ensures rest[i].nro < last.nro
        {
          assert rest[i] in init;
        }
      }
    }
  }

  lemma WithoutTagged(cs: seq<Contribution>, nro: int, goalId: int)
    requires Tagged(cs, goalId)
    ensures Tagged(Without(cs, nro), goalId)
  {
    var r := Without(cs, nro);
    forall i | 0 <= i < |r|
      ensures r[i].goalId == goalId && r[i].nro >= 1
    {
      assert r[i] in cs;
    }
  }

  /** On ascending rows the next number is one more than the last row's. */
  lemma NextAfterLast(cs: seq<Contribution>)
    requires Ascending(cs) && cs != []
    ensures NextNro(cs) == cs[|cs| - 1].nro + 1
  {
    var i :| 0 <= i < |cs| && cs[i].nro == NextNro(cs) - 1;
    if i < |cs| - 1 {
      assert cs[i].nro < cs[|cs| - 1].nro;
    }
  }

  /** Numbering follows the surviving rows only. Deleting any row but the
      last leaves the next number as it was; deleting the last row makes
      the next number one past the rows before it, which is never above
      the deleted number and equals it when the numbers were consecutive:
      with rows 1, 2, 3, deleting #3 hands out 3 again. */
  lemma NumbersFollowSurvivors(cs: seq<Contribution>, goalId: int, nro: int)
    requires Ascending(cs) && Tagged(cs, goalId) && cs != []
    ensures nro != cs[|cs| - 1].nro ==> NextNro(Without(cs, nro)) == NextNro(cs)
    ensures nro == cs[|cs| - 1].nro ==> NextNro(Without(cs, nro)) == NextNro(cs[..|cs| - 1]) <= nro
  {
    if nro != cs[|cs| - 1].nro {
      NextAfterDeletingEarlier(cs, nro);
    } else {
      NextAfterDeletingLast(cs, goalId);
    }
  }

  lemma NextAfterDeletingEarlier(cs: seq<Contribution>, nro: int)
    requires Ascending(cs) && cs != [] && nro != cs[|cs| - 1].nro
    ensures NextNro(Without(cs, nro)) == NextNro(cs)
  {
    var kept := Without(cs, nro);
    assert kept == Without(cs[..|cs| - 1], nro) + [cs[|cs| - 1]];
    WithoutAscending(cs, nro);
    NextAfterLast(kept);
    NextAfterLast(cs);
  }

  lemma NextAfterDeletingLast(cs: seq<Contribution>, goalId: int)
    requires Ascending(cs) && Tagged(cs, goalId) && cs != []
    ensures NextNro(Without(cs, cs[|cs| - 1].nro)) == NextNro(cs[..|cs| - 1]) <= cs[|cs| - 1].nro
  {
    var init, nro := cs[..|cs| - 1], cs[|cs| - 1].nro;
    assert Without(cs, nro) == Without(init, nro);
    assert forall i :: 0 <= i < |init| ==> init[i].nro != nro;
    WithoutAbsent(init, nro);
    if init != [] {
      AscendingInit(cs);
      NextAfterLast(init);
    }
  }
}
