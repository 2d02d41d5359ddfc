/**
 * Timezone selection: the clock keeps an index into a fixed list of
 * supported zones, and the button advances it, wrapping round after the
 * last zone. The Python globals `SUPPORTED_TIMEZONES` and
 * `CURRENT_TIMEZONE_IDX` become a constant and the one field of a class.
 */
module Timezone {
  import opened Strings

  const SupportedTimezones: seq<string> := ["America/New_York", "Asia/Kolkata", "Europe/Rome"]

  lemma NewYorkSplits()
    ensures Split("America/New_York", {'/'}) == ["America", "New_York"]
  {
    assert "America/New_York" == "America" + ['/'] + "New_York";
    SplitTwo("America", '/', "New_York", {'/'});
  }

  lemma KolkataSplits()
    ensures Split("Asia/Kolkata", {'/'}) == ["Asia", "Kolkata"]
  {
    assert "Asia/Kolkata" == "Asia" + ['/'] + "Kolkata";
    SplitTwo("Asia", '/', "Kolkata", {'/'});
  }

  lemma RomeSplits()
    ensures Split("Europe/Rome", {'/'}) == ["Europe", "Rome"]
  {
    assert "Europe/Rome" == "Europe" + ['/'] + "Rome";
    SplitTwo("Europe", '/', "Rome", {'/'});
  }

  /** Every supported zone is `region/city`, so the display can take its city segment. */
  lemma SupportedTimezonesHaveCity()
    ensures forall i :: 0 <= i < |SupportedTimezones| ==> |Split(SupportedTimezones[i], {'/'})| == 2
  {
    forall i | 0 <= i < |SupportedTimezones|
      ensures |Split(SupportedTimezones[i], {'/'})| == 2
    {
      if i == 0 {
        NewYorkSplits();
      } else if i == 1 {
        KolkataSplits();
      } else {
        RomeSplits();
      }
    }
  }

  /**
   * The index after one switch among `n` zones: an index at or past the
   * last one goes back to 0, any other goes up by one, so the index stays
   * inside the list.
   */
  function NextIndex(i: nat, n: nat): (j: nat)
    ensures n > 0 ==> j < n
    ensures i + 1 < n ==> j == i + 1
    ensures i + 1 >= n ==> j == 0
  {
    if i >= n - 1 then 0 else i + 1
  }

  /** The index after `k` switches. */
  function AdvanceBy(i: nat, n: nat, k: nat): nat
  {
    if k == 0 then i else NextIndex(AdvanceBy(i, n, k - 1), n)
  }

  /** `a` switches and then `b` more are `a + b` switches. */
  lemma {:induction false} AdvanceByAdds(i: nat, n: nat, a: nat, b: nat)
    ensures AdvanceBy(i, n, a + b) == AdvanceBy(AdvanceBy(i, n, a), n, b)
  {
    if b > 0 {
      AdvanceByAdds(i, n, a, b - 1);
    }
  }

  /** Short of the end of the list, `k` switches move `k` places forward. */
  lemma {:induction false} AdvanceByForward(i: nat, n: nat, k: nat)
    requires i + k < n
    ensures AdvanceBy(i, n, k) == i + k
  {
    if k > 0 {
      AdvanceByForward(i, n, k - 1);
    }
  }

  /** From a valid index, the switch that passes the last zone lands on the first. */
  lemma WrapsToFirst(i: nat, n: nat)
    requires i < n
    ensures AdvanceBy(i, n, n - i) == 0
  {
    AdvanceByForward(i, n, n - i - 1);
  }

  /** Switching once per supported zone brings the clock back to the zone it showed. */
  lemma FullCycle(i: nat, n: nat)
    requires i < n
    ensures AdvanceBy(i, n, n) == i
  {
    AdvanceByAdds(i, n, n - i, i);
    WrapsToFirst(i, n);
    if i > 0 {
      AdvanceByForward(0, n, i);
    }
  }

  /** The clock's timezone selection: `CURRENT_TIMEZONE_IDX` over `SUPPORTED_TIMEZONES`. */
  class TimezoneSelection {
    var index: nat

    ghost predicate Valid()
      reads this
    {
      index < |SupportedTimezones|
    }

    /** The module starts on the first supported zone. */
    constructor()
      ensures index == 0 && Valid()
    {
      index := 0;
    }

    /** `switch_timezone`: advance to the next zone, wrapping round after the last. */
    method Switch()
      modifies this
      ensures index == NextIndex(old(index), |SupportedTimezones|)
      ensures Valid()
    {
      if index >= |SupportedTimezones| - 1 {
        index := 0;
      } else {
        index := index + 1;
      }
    }

    /** `fetch_current_timezone`: the supported zone at the current index. */
    function Current(): (zone: string)
      reads this
      requires Valid()
      ensures zone in SupportedTimezones
      ensures |Split(zone, {'/'})| == 2
    {
      SupportedTimezonesHaveCity();
      SupportedTimezones[index]
    }
  }
}
