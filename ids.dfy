/**
  The identifier scheme shared by the services: a one-letter prefix followed by a
  zero-padded counter (`R001`, `E101`, `C002`). Each allocator scans the existing IDs for
  the largest numeric suffix carrying its prefix and adds one; `MaxSuffix` is the
  specification of that scan.
*/
module Ids {
  import opened Wrappers
  import opened Strings

  /** `prefix + String.format("%03d", n)`. */
  function FormatId(prefix: char, n: nat): (id: string)
    ensures |id| >= 4 && id[0] == prefix && AllDigits(id[1..])
  {
    [prefix] + Format3(n)
  }

  /**
    The number parsed from `id` when it starts with `prefix` (`id.startsWith(prefix)` followed
    by `Integer.parseInt(id.substring(1))`); None for an ID the scan skips.
  */
  function SuffixOf(id: string, prefix: char): Option<nat>
  {
    if |id| > 0 && id[0] == prefix then ParseDigits(id[1..]) else None
  }

  lemma SuffixOfFormatId(prefix: char, n: nat)
    ensures SuffixOf(FormatId(prefix, n), prefix) == Some(n)
  {
    ParseFormat3(n);
    assert FormatId(prefix, n)[1..] == Format3(n);
  }

  /**
    The scan `max := floor; for id in ids: if suffix(id) > max then max := suffix(id)`:
    at least `floor`, at least every parsed suffix, and either `floor` itself or one of them.
  */
  function MaxSuffix(ids: seq<string>, prefix: char, floor: nat): (m: nat)
    ensures m >= floor
    ensures forall j :: 0 <= j < |ids| && SuffixOf(ids[j], prefix).Some? ==> SuffixOf(ids[j], prefix).value <= m
    ensures m == floor || exists j :: 0 <= j < |ids| && SuffixOf(ids[j], prefix) == Some(m)
  {
    if ids == [] then floor
    else
      var init := ids[..|ids| - 1];
      var m0 := MaxSuffix(init, prefix, floor);
      assert forall j :: 0 <= j < |init| ==> init[j] == ids[j];
      match SuffixOf(ids[|ids| - 1], prefix)
      case Some(n) => if n > m0 then n else m0
      case None => m0
  }

  /** One more step of the scan: the prefix up to `i` extends the prefix before it by `ids[i]`. */
  lemma MaxSuffixStep(ids: seq<string>, i: nat, prefix: char, floor: nat)
    requires i < |ids|
    ensures MaxSuffix(ids[..i + 1], prefix, floor) ==
              match SuffixOf(ids[i], prefix)
              case Some(n) => if n > MaxSuffix(ids[..i], prefix, floor) then n else MaxSuffix(ids[..i], prefix, floor)
              case None => MaxSuffix(ids[..i], prefix, floor)
  {
    assert ids[..i + 1][..i] == ids[..i];
  }

  /** The allocators' loop over the existing IDs, keeping the largest suffix seen so far. */
  method ScanMaxSuffix(ids: seq<string>, prefix: char, floor: nat) returns (max: nat)
    ensures max == MaxSuffix(ids, prefix, floor)
  {
    max := floor;
    var i := 0;
    while i < |ids|
      invariant 0 <= i <= |ids|
      invariant max == MaxSuffix(ids[..i], prefix, floor)
    {
      MaxSuffixStep(ids, i, prefix, floor);
      match SuffixOf(ids[i], prefix) {
        case Some(n) =>
          if n > max {
            max := n;
          }
        case None =>
      }
      i := i + 1;
    }
    assert ids[..|ids|] == ids;
  }

  /** Scanning a concatenation is scanning the second part with the first part's maximum as floor. */
  lemma {:induction false} MaxSuffixAppend(a: seq<string>, b: seq<string>, prefix: char, floor: nat)
    ensures MaxSuffix(a + b, prefix, floor) == MaxSuffix(b, prefix, MaxSuffix(a, prefix, floor))
    decreases |b|
  {
    if b == [] {
      assert a + b == a;
    } else {
      var b0 := b[..|b| - 1];
      MaxSuffixAppend(a, b0, prefix, floor);
      assert (a + b)[..|a + b| - 1] == a + b0;
    }
  }

  /** Only the IDs carrying the prefix matter: a bound on their suffixes bounds the scan. */
  lemma {:induction false} MaxSuffixLeast(ids: seq<string>, prefix: char, floor: nat, bound: nat)
    requires floor <= bound
    requires forall j :: 0 <= j < |ids| && SuffixOf(ids[j], prefix).Some? ==> SuffixOf(ids[j], prefix).value <= bound
    ensures MaxSuffix(ids, prefix, floor) <= bound
  {
    var m := MaxSuffix(ids, prefix, floor);
    if m != floor {
      var j :| 0 <= j < |ids| && SuffixOf(ids[j], prefix) == Some(m);
    }
  }

  /**
    The allocation rule is fresh: an ID numbered above every parsed suffix is different
    from every ID present.
  */
  lemma FreshId(ids: seq<string>, prefix: char, n: nat)
    requires forall j :: 0 <= j < |ids| && SuffixOf(ids[j], prefix).Some? ==> SuffixOf(ids[j], prefix).value < n
    ensures FormatId(prefix, n) !in ids
  {
    SuffixOfFormatId(prefix, n);
  }

  /** Hence the next ID after the scan is fresh. */
  lemma NextIdFresh(ids: seq<string>, prefix: char, floor: nat)
    ensures FormatId(prefix, MaxSuffix(ids, prefix, floor) + 1) !in ids
  {
    FreshId(ids, prefix, MaxSuffix(ids, prefix, floor) + 1);
  }

  /** IDs with different prefixes never collide, and equal prefixes collide only on equal counters. */
  lemma FormatIdInjective(p: char, m: nat, q: char, n: nat)
    ensures FormatId(p, m) == FormatId(q, n) <==> p == q && m == n
  {
    if FormatId(p, m) == FormatId(q, n) {
      assert FormatId(p, m)[1..] == Format3(m);
      assert FormatId(q, n)[1..] == Format3(n);
      Format3Injective(m, n);
    }
  }
}
