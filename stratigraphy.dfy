// The stratigraphic filter: the preserved record is the backward running
// minimum of the elevation record, because a later, lower surface erodes
// everything deposited above it.
module Stratigraphy {
  import opened Elevation

  function Min(a: real, b: real): (m: real)
    ensures m <= a && m <= b
    ensures m == a || m == b
  {
    if a <= b then a else b
  }

  /** The preserved record of `elev`, built from the last point backward:
      the last point is kept and every earlier one is the smaller of its own
      elevation and the preserved value after it. */
  function Filter(elev: seq<real>): (strat: seq<real>)
    ensures |strat| == |elev|
    ensures |elev| >= 1 ==> strat[|strat| - 1] == elev[|elev| - 1]
    decreases |elev|
  {
    if |elev| <= 1 then elev
    else
      var rest := Filter(elev[1..]);
      [Min(elev[0], rest[0])] + rest
  }

  /** `m` is the least value of the non-empty sequence `xs`. */
  ghost predicate IsMinOf(m: real, xs: seq<real>)
  {
    m in xs && forall x :: x in xs ==> m <= x
  }

  ghost predicate Nondecreasing(s: seq<real>)
  {
    forall j, k :: 0 <= j <= k < |s| ==> s[j] <= s[k]
  }

  /** Filtering and dropping the first point commute. */
  lemma FilterTail(elev: seq<real>, j: nat)
    requires 1 <= j < |elev|
    ensures Filter(elev)[j] == Filter(elev[1..])[j - 1]
  {
  }

  /** The recurrence the backward loop runs: each point but the last is the
      minimum of its elevation and the next preserved value. */
  lemma {:induction false} FilterStep(elev: seq<real>)
    ensures forall j :: 0 <= j < |elev| - 1 ==> Filter(elev)[j] == Min(elev[j], Filter(elev)[j + 1])
    decreases |elev|
  {
    if |elev| > 1 {
      FilterStep(elev[1..]);
      forall j | 1 <= j < |elev| - 1
        ensures Filter(elev)[j] == Min(elev[j], Filter(elev)[j + 1])
      {
        FilterTail(elev, j);
        FilterTail(elev, j + 1);
        assert elev[1..][j - 1] == elev[j];
      }
    }
  }

  /** The preserved record never lies above the elevation record. */
  lemma FilterBelow(elev: seq<real>)
    ensures forall j :: 0 <= j < |elev| ==> Filter(elev)[j] <= elev[j]
  {
    var strat := Filter(elev);
    FilterStep(elev);
    forall j | 0 <= j < |elev| ensures strat[j] <= elev[j] {
      if j < |elev| - 1 {
        assert strat[j] == Min(elev[j], strat[j + 1]);
      }
    }
  }

  /** The preserved record is non-decreasing forward in time. */
  lemma {:induction false} FilterNondecreasing(elev: seq<real>)
    ensures Nondecreasing(Filter(elev))
    decreases |elev|
  {
    if |elev| > 1 {
      FilterNondecreasing(elev[1..]);
      var s := Filter(elev);
      forall j, k | 0 <= j <= k < |s|
        ensures s[j] <= s[k]
      {
        if j >= 1 {
          FilterTail(elev, j);
          FilterTail(elev, k);
        } else if k >= 1 {
          FilterTail(elev, k);
          assert Filter(elev[1..])[0] <= Filter(elev[1..])[k - 1];
        }
      }
    }
  }

  /** Prepending a point to a sequence whose minimum is `m` gives the minimum
      of that point and `m`. */
  lemma MinOfCons(x: real, m: real, xs: seq<real>)
    requires IsMinOf(m, xs)
    ensures IsMinOf(Min(x, m), [x] + xs)
  {
    forall y | y in [x] + xs ensures Min(x, m) <= y {
      if y != x {
        assert y in xs;
      }
    }
  }

  /** The preserved value at time `j` is the minimum of the elevations from
      `j` to the end of the record. */
  lemma {:induction false} SuffixMinAt(elev: seq<real>, j: nat)
    requires j < |elev|
    ensures IsMinOf(Filter(elev)[j], elev[j..])
    decreases |elev|
  {
    var rest := elev[1..];
    if j >= 1 {
      SuffixMinAt(rest, j - 1);
      FilterTail(elev, j);
      assert rest[j - 1..] == elev[j..];
    } else if |elev| == 1 {
      assert elev[0..] == elev;
    } else {
      SuffixMinAt(rest, 0);
      assert rest[0..] == rest;
      MinOfCons(elev[0], Filter(rest)[0], rest);
      assert elev[0..] == [elev[0]] + rest;
    }
  }

  /** Each preserved value is the minimum of the elevations from that time to
      the end of the record. */
  lemma FilterIsSuffixMin(elev: seq<real>)
    ensures forall j :: 0 <= j < |elev| ==> IsMinOf(Filter(elev)[j], elev[j..])
  {
    forall j | 0 <= j < |elev| ensures IsMinOf(Filter(elev)[j], elev[j..]) {
      SuffixMinAt(elev, j);
    }
  }

  /** The earliest preserved value is the least elevation of the whole record. */
  lemma FilterFirstIsGlobalMin(elev: seq<real>)
    requires |elev| >= 1
    ensures IsMinOf(Filter(elev)[0], elev)
  {
    FilterIsSuffixMin(elev);
    assert elev[0..] == elev;
  }

  /** A walk starts at 0, so the earliest preserved value is at most 0. */
  lemma FilteredWalkStartsAtOrBelowZero(jumps: seq<real>)
    ensures Filter(Walk(jumps))[0] <= 0.0
  {
    FilterBelow(Walk(jumps));
  }

  /** The minimum of a suffix equals its first point when no later point
      lies below that one. */
  lemma SuffixMinIsFirst(elev: seq<real>, m: real, j: nat)
    requires j < |elev| && IsMinOf(m, elev[j..])
    requires forall k :: j <= k < |elev| ==> elev[j] <= elev[k]
    ensures m == elev[j]
  {
    var i :| 0 <= i < |elev[j..]| && elev[j..][i] == m;
    assert elev[j..][i] == elev[j + i];
    assert elev[j] <= elev[j + i];
    assert elev[j..][0] == elev[j];
    assert elev[j] in elev[j..];
  }

  /** When the minimum of a suffix equals its first point, no later point
      lies below that one. */
  lemma FirstIsSuffixMin(elev: seq<real>, m: real, j: nat)
    requires j < |elev| && IsMinOf(m, elev[j..]) && m == elev[j]
    ensures forall k :: j <= k < |elev| ==> elev[j] <= elev[k]
  {
    forall k | j <= k < |elev| ensures elev[j] <= elev[k] {
      assert elev[j..][k - j] == elev[k];
      assert elev[k] in elev[j..];
    }
  }

  /** A time is preserved exactly when no later elevation lies below it. */
  lemma PreservedIff(elev: seq<real>, j: nat)
    requires j < |elev|
    ensures Filter(elev)[j] == elev[j] <==> forall k :: j <= k < |elev| ==> elev[j] <= elev[k]
  {
    var m := Filter(elev)[j];
    SuffixMinAt(elev, j);
    if m == elev[j] {
      FirstIsSuffixMin(elev, m, j);
    }
    if forall k :: j <= k < |elev| ==> elev[j] <= elev[k] {
      SuffixMinIsFirst(elev, m, j);
    }
  }

  /** A record that never falls is preserved whole, and only such a record is. */
  lemma {:induction false} FilterFixedIff(elev: seq<real>)
    ensures Filter(elev) == elev <==> Nondecreasing(elev)
    decreases |elev|
  {
    if Nondecreasing(elev) {
      if |elev| > 1 {
        var rest := elev[1..];
        assert Nondecreasing(rest) by {
          forall j, k | 0 <= j <= k < |rest| ensures rest[j] <= rest[k] {
            assert rest[j] == elev[j + 1] && rest[k] == elev[k + 1];
          }
        }
        FilterFixedIff(rest);
        assert elev[0] <= elev[1];
        assert elev == [elev[0]] + rest;
      }
    } else {
      FilterNondecreasing(elev);
    }
  }

  /** Filtering a preserved record changes nothing. */
  lemma FilterIdempotent(elev: seq<real>)
    ensures Filter(Filter(elev)) == Filter(elev)
  {
    FilterNondecreasing(elev);
    FilterFixedIff(Filter(elev));
  }

  /** Fills a fresh array of `nt` preserved values from the elevation array,
      from index `nt - 1` backward to 0. */
  method GenerateStratigraphy(nt: nat, elev: array<real>) returns (strat: array<real>)
    requires nt >= 1 && elev.Length == nt
    ensures fresh(strat) && strat.Length == nt
    ensures strat[..] == Filter(elev[..])
    ensures strat[nt - 1] == elev[nt - 1]
    ensures forall j :: 0 <= j < nt - 1 ==> strat[j] == Min(elev[j], strat[j + 1])
  {
    strat := new real[nt](_ => 0.0);
    strat[nt - 1] := elev[nt - 1];
    assert strat[nt - 1..] == elev[nt - 1..];
    for j := nt - 1 downto 0
      invariant strat[j..] == Filter(elev[j..])
    {
      ghost var rest := strat[j + 1..];
      strat[j] := Min(elev[j], strat[j + 1]);
      assert strat[j..] == [strat[j]] + rest;
      assert elev[j..][1..] == elev[j + 1..];
    }
    assert strat[..] == strat[0..] && elev[..] == elev[0..];
    FilterStep(elev[..]);
  }
}
