/**
 * The world-time overview of `list_all_times`: the curated identifier list,
 * the six-region `regions` dict, the first-word classification rule, the
 * grouping loop and the loop that emits each non-empty region sorted.
 */
module Regions {
  import opened Wrappers
  import opened PyStr
  import opened PySorted

  datatype Region = NorthAmerica | SouthAmerica | Europe | Asia | Oceania | Africa

  /** Number of keys of the `regions` dict. */
  const RegionCount: nat := 6

  /** The `n`-th key of the dict in declaration order, which is also its iteration order. */
  function RegionAt(n: nat): Region
    requires n < RegionCount
  {
    if n == 0 then NorthAmerica
    else if n == 1 then SouthAmerica
    else if n == 2 then Europe
    else if n == 3 then Asia
    else if n == 4 then Oceania
    else Africa
  }

  /** Position of a region among the dict's keys. */
  function Rank(r: Region): (n: nat)
    ensures n < RegionCount
  {
    match r
    case NorthAmerica => 0
    case SouthAmerica => 1
    case Europe => 2
    case Asia => 3
    case Oceania => 4
    case Africa => 5
  }

  /** `RegionAt` undoes `Rank`. */
  lemma RankAt(r: Region)
    ensures RegionAt(Rank(r)) == r
  {
  }

  /** Every position names a different key: `Rank` undoes `RegionAt`. */
  lemma RankInverse(n: nat)
    requires n < RegionCount
    ensures Rank(RegionAt(n)) == n
  {
  }

  /** A region sits at position `n` exactly when `n` is its rank. */
  lemma RankMatches(r: Region, n: nat)
    requires n < RegionCount
    ensures r == RegionAt(n) <==> Rank(r) == n
  {
    RankAt(r);
    RankInverse(n);
  }

  /** The dict key naming each region, printed as the section header. */
  function Label(r: Region): string {
    match r
    case NorthAmerica => "North America"
    case SouthAmerica => "South America"
    case Europe => "Europe"
    case Asia => "Asia"
    case Oceania => "Oceania"
    case Africa => "Africa"
  }

  /** The word that the classification looks for in an identifier. */
  function Keyword(r: Region): string {
    match r
    case NorthAmerica => "North"
    case SouthAmerica => "South"
    case Europe => "Europe"
    case Asia => "Asia"
    case Oceania => "Oceania"
    case Africa => "Africa"
  }

  /** The keyword is `r.split()[0]`, the first word of the dict key. */
  lemma KeywordIsFirstWordOfLabel(r: Region)
    ensures FirstWord(Label(r)) == Some(Keyword(r))
  {
    var s := Label(r);
    var n := |Keyword(r)|;
    assert s[..n] == Keyword(r);
    if r == NorthAmerica || r == SouthAmerica {
      assert s[n] == ' ';
    }
    assert forall i :: 0 <= i < n ==> !IsSpace(s[i]);
    LeadingWordIs(s, n);
  }

  /**
   * The first key from the `n`-th on whose keyword occurs in `tz`,
   * case-sensitively.
   */
  function FirstMatchingFrom(n: nat, tz: string): (m: Option<Region>)
    ensures m.Some? ==> n <= Rank(m.value) && Contains(tz, Keyword(m.value))
    decreases RegionCount - n
  {
    if n >= RegionCount then None
    else if Contains(tz, Keyword(RegionAt(n))) then Some(RegionAt(n))
    else FirstMatchingFrom(n + 1, tz)
  }

  /**
   * `next(r for r in regions.keys() if r.split()[0] in tz)`; `None` where
   * Python raises `StopIteration`.
   */
  function Classify(tz: string): Option<Region> {
    FirstMatchingFrom(0, tz)
  }

  lemma {:induction false} FirstMatchingFromIsFirst(n: nat, tz: string, r: Region)
    requires n <= Rank(r)
    ensures FirstMatchingFrom(n, tz) == Some(r)
        <==> Contains(tz, Keyword(r)) && forall q :: n <= Rank(q) < Rank(r) ==> !Contains(tz, Keyword(q))
    decreases RegionCount - n
  {
    RankInverse(n);
    if n < Rank(r) {
      FirstMatchingFromIsFirst(n + 1, tz, r);
    }
  }

  lemma {:induction false} FirstMatchingFromNone(n: nat, tz: string)
    ensures FirstMatchingFrom(n, tz).None? <==> forall q :: n <= Rank(q) ==> !Contains(tz, Keyword(q))
    decreases RegionCount - n
  {
    if n < RegionCount {
      RankInverse(n);
      FirstMatchingFromNone(n + 1, tz);
    }
  }

  /**
   * A region is the classification of `tz` exactly when its keyword occurs
   * in `tz` and no keyword declared before it does.
   */
  lemma ClassifyIsFirstInDeclarationOrder(tz: string, r: Region)
    ensures Classify(tz) == Some(r)
        <==> Contains(tz, Keyword(r)) && forall q :: Rank(q) < Rank(r) ==> !Contains(tz, Keyword(q))
  {
    FirstMatchingFromIsFirst(0, tz, r);
  }

  /** Classification fails exactly when no keyword occurs in `tz`. */
  lemma ClassifyFails(tz: string)
    ensures Classify(tz).None? <==> forall r :: !Contains(tz, Keyword(r))
  {
    FirstMatchingFromNone(0, tz);
  }

  /**
   * Bucket `r` of the `regions` dict after appending `zones` in order:
   * the entries classified to `r`, in list order.
   */
  function Bucket(classify: string -> Option<Region>, zones: seq<string>, r: Region): seq<string> {
    if zones == [] then []
    else
      var last := zones[|zones| - 1];
      Bucket(classify, zones[..|zones| - 1], r) + (if classify(last) == Some(r) then [last] else [])
  }

  /** The keys of the dict. */
  const AllRegions: set<Region> := {NorthAmerica, SouthAmerica, Europe, Asia, Oceania, Africa}

  lemma AllRegionsAreKeys()
    ensures forall r :: r in AllRegions
  {
    forall r ensures r in AllRegions {
      match r
      case NorthAmerica =>
      case SouthAmerica =>
      case Europe =>
      case Asia =>
      case Oceania =>
      case Africa =>
    }
  }

  /** The whole `regions` dict after appending `zones`. */
  function Buckets(classify: string -> Option<Region>, zones: seq<string>): (m: map<Region, seq<string>>)
    ensures forall r :: r in m && m[r] == Bucket(classify, zones, r)
  {
    AllRegionsAreKeys();
    map r | r in AllRegions :: Bucket(classify, zones, r)
  }

  /** Appending one classified entry extends its own bucket and no other. */
  lemma BucketsSnoc(classify: string -> Option<Region>, zones: seq<string>, x: string)
    requires classify(x).Some?
    ensures var m := Buckets(classify, zones);
      Buckets(classify, zones + [x]) == m[classify(x).value := m[classify(x).value] + [x]]
  {
    var m := Buckets(classify, zones);
    var c := classify(x).value;
    var updated := m[c := m[c] + [x]];
    assert (zones + [x])[..|zones|] == zones;
    forall r ensures Buckets(classify, zones + [x])[r] == updated[r] {
    }
    AllRegionsAreKeys();
    assert Buckets(classify, zones + [x]).Keys == updated.Keys;
  }

  /** The index of the first entry that has no region, if any. */
  function FirstUnclassified(classify: string -> Option<Region>, zones: seq<string>): (k: Option<nat>)
    ensures k.None? <==> forall j :: 0 <= j < |zones| ==> classify(zones[j]).Some?
    ensures k.Some? ==> (k.value < |zones| && classify(zones[k.value]).None?
      && forall j :: 0 <= j < k.value ==> classify(zones[j]).Some?)
  {
    if zones == [] then None
    else if classify(zones[0]).None? then Some(0)
    else match FirstUnclassified(classify, zones[1..])
      case None => None
      case Some(k) => Some(k + 1)
  }

  /**
   * The grouping loop: the filled dict, or the index of the entry at which
   * the classification raised `StopIteration`.
   */
  function Group(classify: string -> Option<Region>, zones: seq<string>): Result<map<Region, seq<string>>, nat> {
    match FirstUnclassified(classify, zones)
    case Some(k) => Failure(k)
    case None => Success(Buckets(classify, zones))
  }

  /** `for tz in major_timezones: regions[classify(tz)].append(tz)`. */
  method GroupByRegion(classify: string -> Option<Region>, zones: seq<string>)
    returns (result: Result<map<Region, seq<string>>, nat>)
    ensures result == Group(classify, zones)
  {
    var regions := map[NorthAmerica := [], SouthAmerica := [], Europe := [], Asia := [], Oceania := [], Africa := []];
    assert regions == Buckets(classify, zones[..0]);
    var i := 0;
    while i < |zones|
      invariant 0 <= i <= |zones|
      invariant forall j :: 0 <= j < i ==> classify(zones[j]).Some?
      invariant regions == Buckets(classify, zones[..i])
    {
      var region := classify(zones[i]);
      if region.None? {
        return Failure(i);
      }
      assert zones[..i + 1] == zones[..i] + [zones[i]];
      BucketsSnoc(classify, zones[..i], zones[i]);
      regions := regions[region.value := regions[region.value] + [zones[i]]];
      i := i + 1;
    }
    assert zones[..i] == zones;
    return Success(regions);
  }

  /** One printed group: a region header followed by its identifiers. */
  datatype Section = Section(region: Region, zones: seq<string>)

  /**
   * `for region, timezones in regions.items(): if timezones: ... sorted(timezones)`,
   * from the `n`-th key of the dict on.
   */
  function SectionsFrom(regions: map<Region, seq<string>>, n: nat): seq<Section>
    requires forall r :: r in regions
    decreases RegionCount - n
  {
    if n >= RegionCount then []
    else
      var r := RegionAt(n);
      (if regions[r] != [] then [Section(r, Sort(regions[r]))] else []) + SectionsFrom(regions, n + 1)
  }

  lemma SectionsFromUnfold(regions: map<Region, seq<string>>, n: nat)
    requires forall r :: r in regions
    requires n < RegionCount
    ensures regions[RegionAt(n)] != [] ==>
      (SectionsFrom(regions, n) == [Section(RegionAt(n), Sort(regions[RegionAt(n)]))] + SectionsFrom(regions, n + 1))
    ensures regions[RegionAt(n)] == [] ==> SectionsFrom(regions, n) == SectionsFrom(regions, n + 1)
  {
  }

  /** The output loop over the dict. */
  method Emit(regions: map<Region, seq<string>>) returns (sections: seq<Section>)
    requires forall r :: r in regions
    ensures sections == SectionsFrom(regions, 0)
  {
    sections := [];
    ghost var all := SectionsFrom(regions, 0);
    var n := 0;
    while n < RegionCount
      invariant 0 <= n <= RegionCount
      invariant sections + SectionsFrom(regions, n) == all
    {
      var region := RegionAt(n);
      var timezones := regions[region];
      SectionsFromUnfold(regions, n);
      ghost var rest := SectionsFrom(regions, n + 1);
      if timezones != [] {
        var section := Section(region, Sort(timezones));
        AppendAssoc(sections, section, rest);
        sections := sections + [section];
      }
      n := n + 1;
    }
  }

  lemma AppendAssoc(a: seq<Section>, x: Section, b: seq<Section>)
    ensures a + [x] + b == a + ([x] + b)
  {
  }

  /** `list_all_times` over the list `zones`. */
  method ListAllTimes(classify: string -> Option<Region>, zones: seq<string>)
    returns (result: Result<seq<Section>, nat>)
    ensures Group(classify, zones).Failure? ==> result == Failure(Group(classify, zones).error)
    ensures Group(classify, zones).Success?
        ==> result == Success(SectionsFrom(Group(classify, zones).value, 0))
  {
    var grouped := GroupByRegion(classify, zones);
    match grouped {
      case Failure(k) =>
        result := Failure(k);
      case Success(regions) =>
        var sections := Emit(regions);
        result := Success(sections);
    }
  }

  /** Every section holds the sorted bucket of its region, which is not empty. */
  predicate FromBuckets(regions: map<Region, seq<string>>, s: seq<Section>)
    requires forall r :: r in regions
  {
    forall i :: 0 <= i < |s| ==> regions[s[i].region] != [] && s[i].zones == Sort(regions[s[i].region])
  }

  lemma ConsFromBuckets(regions: map<Region, seq<string>>, head: Section, rest: seq<Section>)
    requires forall r :: r in regions
    requires FromBuckets(regions, rest)
    requires regions[head.region] != [] && head.zones == Sort(regions[head.region])
    ensures FromBuckets(regions, [head] + rest)
  {
    var s := [head] + rest;
    forall i | 0 <= i < |s|
      ensures regions[s[i].region] != [] && s[i].zones == Sort(regions[s[i].region])
    {
      if i > 0 { assert s[i] == rest[i - 1]; }
    }
  }

  lemma {:induction false} SectionsFromBuckets(regions: map<Region, seq<string>>, n: nat)
    requires forall r :: r in regions
    ensures FromBuckets(regions, SectionsFrom(regions, n))
    decreases RegionCount - n
  {
    if n < RegionCount {
      SectionsFromBuckets(regions, n + 1);
      BucketsStep(regions, n);
    }
  }

  lemma BucketsStep(regions: map<Region, seq<string>>, n: nat)
    requires forall r :: r in regions
    requires n < RegionCount
    requires FromBuckets(regions, SectionsFrom(regions, n + 1))
    ensures FromBuckets(regions, SectionsFrom(regions, n))
  {
    SectionsFromUnfold(regions, n);
    var r := RegionAt(n);
    if regions[r] != [] {
      ConsFromBuckets(regions, Section(r, Sort(regions[r])), SectionsFrom(regions, n + 1));
    }
  }

  /** Every section's region is the `n`-th key or a later one. */
  predicate RanksFrom(s: seq<Section>, n: nat) {
    forall i :: 0 <= i < |s| ==> n <= Rank(s[i].region)
  }

  /** The sections' regions strictly follow the dict's declaration order. */
  predicate RanksIncreasing(s: seq<Section>) {
    forall i, j :: 0 <= i < j < |s| ==> Rank(s[i].region) < Rank(s[j].region)
  }

  lemma ConsIncreasing(head: Section, rest: seq<Section>)
    requires RanksIncreasing(rest) && RanksFrom(rest, Rank(head.region) + 1)
    ensures RanksIncreasing([head] + rest) && RanksFrom([head] + rest, Rank(head.region))
  {
    var s := [head] + rest;
    forall i, j | 0 <= i < j < |s| ensures Rank(s[i].region) < Rank(s[j].region) {
      assert s[j] == rest[j - 1];
      if i > 0 { assert s[i] == rest[i - 1]; }
    }
    forall i | 0 <= i < |s| ensures Rank(head.region) <= Rank(s[i].region) {
      if i > 0 { assert s[i] == rest[i - 1]; }
    }
  }

  lemma {:induction false} SectionsFromOrdered(regions: map<Region, seq<string>>, n: nat)
    requires forall r :: r in regions
    ensures RanksIncreasing(SectionsFrom(regions, n)) && RanksFrom(SectionsFrom(regions, n), n)
    decreases RegionCount - n
  {
    if n < RegionCount {
      SectionsFromOrdered(regions, n + 1);
      OrderedStep(regions, n);
    }
  }

  lemma OrderedStep(regions: map<Region, seq<string>>, n: nat)
    requires forall r :: r in regions
    requires n < RegionCount
    requires RanksIncreasing(SectionsFrom(regions, n + 1)) && RanksFrom(SectionsFrom(regions, n + 1), n + 1)
    ensures RanksIncreasing(SectionsFrom(regions, n)) && RanksFrom(SectionsFrom(regions, n), n)
  {
    SectionsFromUnfold(regions, n);
    RankInverse(n);
    var r := RegionAt(n);
    if regions[r] != [] {
      ConsIncreasing(Section(r, Sort(regions[r])), SectionsFrom(regions, n + 1));
    } else {
      RanksFromWeaken(SectionsFrom(regions, n + 1), n + 1, n);
    }
  }

  lemma RanksFromWeaken(s: seq<Section>, n: nat, m: nat)
    requires RanksFrom(s, n) && m <= n
    ensures RanksFrom(s, m)
  {
  }

  /** Some section is headed by region `r`. */
  predicate Listed(s: seq<Section>, r: Region) {
    exists i :: 0 <= i < |s| && s[i].region == r
  }

  lemma ConsListed(head: Section, rest: seq<Section>, r: Region)
    requires head.region == r || Listed(rest, r)
    ensures Listed([head] + rest, r)
  {
    var s := [head] + rest;
    if head.region == r {
      assert s[0].region == r;
    } else {
      var i :| 0 <= i < |rest| && rest[i].region == r;
      assert s[i + 1] == rest[i];
    }
  }

  lemma {:induction false} SectionsFromComplete(regions: map<Region, seq<string>>, n: nat, r: Region)
    requires forall r :: r in regions
    requires n <= Rank(r) && regions[r] != []
    ensures Listed(SectionsFrom(regions, n), r)
    decreases RegionCount - n
  {
    SectionsFromUnfold(regions, n);
    RankMatches(r, n);
    var q := RegionAt(n);
    var rest := SectionsFrom(regions, n + 1);
    if q == r {
      ConsListed(Section(q, Sort(regions[q])), rest, r);
    } else {
      SectionsFromComplete(regions, n + 1, r);
      if regions[q] != [] {
        ConsListed(Section(q, Sort(regions[q])), rest, r);
      } else {
        assert SectionsFrom(regions, n) == rest;
      }
    }
  }

  /** `sorted` of a non-empty bucket is a non-empty sorted permutation of it. */
  lemma SortedBucket(b: seq<string>)
    requires b != []
    ensures Sort(b) != [] && Sorted(Sort(b)) && multiset(Sort(b)) == multiset(b)
  {
    SortSpec(b);
    assert b[0] in multiset(b);
  }

  /**
   * The emitted sections follow the dict's declaration order, skip empty
   * regions, include every non-empty one, and list each region's
   * identifiers as a sorted permutation of its bucket.
   */
  lemma SectionsShape(regions: map<Region, seq<string>>)
    requires forall r :: r in regions
    ensures var s := SectionsFrom(regions, 0);
      (forall i :: 0 <= i < |s| ==>
        s[i].zones != [] && Sorted(s[i].zones) && multiset(s[i].zones) == multiset(regions[s[i].region]))
      && RanksIncreasing(s)
      && (forall r :: regions[r] != [] <==> Listed(s, r))
  {
    var s := SectionsFrom(regions, 0);
    SectionsFromBuckets(regions, 0);
    SectionsFromOrdered(regions, 0);
    forall i | 0 <= i < |s|
      ensures s[i].zones != [] && Sorted(s[i].zones) && multiset(s[i].zones) == multiset(regions[s[i].region])
    {
      SortedBucket(regions[s[i].region]);
    }
    forall r ensures regions[r] != [] <==> Listed(s, r) {
      if regions[r] != [] {
        SectionsFromComplete(regions, 0, r);
      }
    }
  }

  /** An entry lands in bucket `r` exactly when it is in the list and classified to `r`. */
  lemma {:induction false} BucketMembers(classify: string -> Option<Region>, zones: seq<string>, r: Region, x: string)
    ensures x in Bucket(classify, zones, r) <==> x in zones && classify(x) == Some(r)
  {
    if zones != [] {
      var init := zones[..|zones| - 1];
      BucketMembers(classify, init, r, x);
      assert zones == init + [zones[|zones| - 1]];
    }
  }

  /**
   * Where classification is total, every listed entry is in exactly one
   * bucket: the one of its region.
   */
  lemma InExactlyOneBucket(classify: string -> Option<Region>, zones: seq<string>, x: string)
    requires x in zones && classify(x).Some?
    ensures forall r :: x in Bucket(classify, zones, r) <==> r == classify(x).value
  {
    forall r ensures x in Bucket(classify, zones, r) <==> r == classify(x).value {
      BucketMembers(classify, zones, r, x);
    }
  }

  /** The buckets of the dict from the `n`-th key on, concatenated. */
  function GatheredFrom(regions: map<Region, seq<string>>, n: nat): seq<string>
    requires forall r :: r in regions
    decreases RegionCount - n
  {
    if n >= RegionCount then []
    else regions[RegionAt(n)] + GatheredFrom(regions, n + 1)
  }

  /** Bucket `r` holds each entry classified to `r` as often as the list does, and nothing else. */
  lemma {:induction false} BucketCount(classify: string -> Option<Region>, zones: seq<string>, r: Region, y: string)
    ensures multiset(Bucket(classify, zones, r))[y] == if classify(y) == Some(r) then multiset(zones)[y] else 0
  {
    if zones != [] {
      BucketCount(classify, zones[..|zones| - 1], r, y);
      LastSplit(zones);
    }
  }

  lemma LastSplit(s: seq<string>)
    requires s != []
    ensures multiset(s) == multiset(s[..|s| - 1]) + multiset{s[|s| - 1]}
  {
    assert s == s[..|s| - 1] + [s[|s| - 1]];
  }

  /**
   * The buckets from the `n`-th key on hold an entry as often as the list
   * does when its region is among those keys, and not at all otherwise.
   */
  lemma {:induction false} GatheredCount(classify: string -> Option<Region>, zones: seq<string>, n: nat, y: string)
    ensures multiset(GatheredFrom(Buckets(classify, zones), n))[y]
      == if classify(y).Some? && n <= Rank(classify(y).value) then multiset(zones)[y] else 0
    decreases RegionCount - n
  {
    if n < RegionCount {
      GatheredCount(classify, zones, n + 1, y);
      var m := Buckets(classify, zones);
      var r := RegionAt(n);
      BucketCount(classify, zones, r, y);
      assert GatheredFrom(m, n) == Bucket(classify, zones, r) + GatheredFrom(m, n + 1);
      assert multiset(GatheredFrom(m, n))[y]
        == multiset(Bucket(classify, zones, r))[y] + multiset(GatheredFrom(m, n + 1))[y];
      if classify(y).Some? {
        RankMatches(classify(y).value, n);
      }
    }
  }

  /**
   * Where classification is total, the six buckets together hold exactly
   * the listed entries: nothing dropped, nothing duplicated, and the bucket
   * sizes add up to the length of the list.
   */
  lemma BucketsPartition(classify: string -> Option<Region>, zones: seq<string>)
    requires forall j :: 0 <= j < |zones| ==> classify(zones[j]).Some?
    ensures multiset(GatheredFrom(Buckets(classify, zones), 0)) == multiset(zones)
    ensures |GatheredFrom(Buckets(classify, zones), 0)| == |zones|
  {
    var g := GatheredFrom(Buckets(classify, zones), 0);
    forall y ensures multiset(g)[y] == multiset(zones)[y] {
      PartitionCount(classify, zones, y);
    }
    assert multiset(g) == multiset(zones);
    assert |multiset(g)| == |g|;
  }

  lemma PartitionCount(classify: string -> Option<Region>, zones: seq<string>, y: string)
    requires forall j :: 0 <= j < |zones| ==> classify(zones[j]).Some?
    ensures multiset(GatheredFrom(Buckets(classify, zones), 0))[y] == multiset(zones)[y]
  {
    GatheredCount(classify, zones, 0, y);
    if y in zones {
      var j :| 0 <= j < |zones| && zones[j] == y;
    }
  }

  /** The identifiers of all sections, in print order. */
  function Printed(sections: seq<Section>): seq<string> {
    if sections == [] then [] else sections[0].zones + Printed(sections[1..])
  }

  lemma PrintedCons(head: Section, rest: seq<Section>)
    ensures Printed([head] + rest) == head.zones + Printed(rest)
  {
    assert ([head] + rest)[1..] == rest;
  }

  /** The output prints the concatenated buckets, up to the order inside each. */
  lemma {:induction false} PrintedGathered(regions: map<Region, seq<string>>, n: nat)
    requires forall r :: r in regions
    ensures multiset(Printed(SectionsFrom(regions, n))) == multiset(GatheredFrom(regions, n))
    decreases RegionCount - n
  {
    if n < RegionCount {
      PrintedGathered(regions, n + 1);
      SectionsFromUnfold(regions, n);
      var b := regions[RegionAt(n)];
      var rest := SectionsFrom(regions, n + 1);
      assert GatheredFrom(regions, n) == b + GatheredFrom(regions, n + 1);
      if b != [] {
        SortedBucket(b);
        PrintedCons(Section(RegionAt(n), Sort(b)), rest);
        assert multiset(Printed(SectionsFrom(regions, n))) == multiset(Sort(b)) + multiset(Printed(rest));
      }
    }
  }

  /**
   * When the grouping succeeds, the overview prints every listed entry
   * exactly as often as the list holds it.
   */
  lemma OverviewPrintsEachEntryOnce(classify: string -> Option<Region>, zones: seq<string>)
    requires Group(classify, zones).Success?
    ensures multiset(Printed(SectionsFrom(Group(classify, zones).value, 0))) == multiset(zones)
  {
    BucketsPartition(classify, zones);
    PrintedGathered(Buckets(classify, zones), 0);
  }

  /** The curated `major_timezones` list, block by block as its comments head them. */
  const NorthAmericaBlock: seq<string> := [
    "America/New_York", "America/Los_Angeles", "America/Chicago", "America/Toronto",
    "America/Vancouver", "America/Mexico_City", "America/Panama", "America/Havana"
  ]
  const SouthAmericaBlock: seq<string> := [
    "America/Sao_Paulo", "America/Buenos_Aires", "America/Santiago", "America/Lima", "America/Bogota"
  ]
  const EuropeBlock: seq<string> := [
    "Europe/London", "Europe/Paris", "Europe/Berlin", "Europe/Rome", "Europe/Madrid",
    "Europe/Amsterdam", "Europe/Moscow", "Europe/Istanbul", "Europe/Stockholm",
    "Europe/Oslo", "Europe/Copenhagen", "Europe/Vienna", "Europe/Warsaw"
  ]
  const AsiaBlock: seq<string> := [
    "Asia/Tokyo", "Asia/Shanghai", "Asia/Singapore", "Asia/Dubai", "Asia/Hong_Kong",
    "Asia/Seoul", "Asia/Bangkok", "Asia/Taipei", "Asia/Manila", "Asia/Jakarta",
    "Asia/Mumbai", "Asia/Kolkata", "Asia/Tel_Aviv", "Asia/Ho_Chi_Minh"
  ]
  const OceaniaBlock: seq<string> := [
    "Australia/Sydney", "Australia/Melbourne", "Australia/Brisbane", "Australia/Perth",
    "Pacific/Auckland", "Pacific/Fiji", "Pacific/Honolulu"
  ]
  const AfricaBlock: seq<string> := [
    "Africa/Cairo", "Africa/Lagos", "Africa/Johannesburg", "Africa/Nairobi",
    "Africa/Casablanca", "Africa/Addis_Ababa", "Africa/Dar_es_Salaam"
  ]
  const CentralAsiaBlock: seq<string> := ["Asia/Tashkent", "Asia/Almaty", "Asia/Dhaka", "Asia/Karachi"]
  const SouthPacificBlock: seq<string> := ["Pacific/Port_Moresby", "Pacific/Guadalcanal", "Pacific/Noumea"]

  const MajorTimezones: seq<string> :=
    NorthAmericaBlock + SouthAmericaBlock + EuropeBlock + AsiaBlock
    + OceaniaBlock + AfricaBlock + CentralAsiaBlock + SouthPacificBlock

  /** The grouping stops at the first entry when that entry has no region. */
  lemma GroupStopsAtFirst(classify: string -> Option<Region>, zones: seq<string>)
    requires zones != [] && classify(zones[0]).None?
    ensures Group(classify, zones) == Failure(0)
  {
  }

  /** An identifier lacking, for each region, some letter of its keyword has no region. */
  lemma UnclassifiedWhenLettersMissing(tz: string, missing: Region -> char)
    requires forall r :: missing(r) in Keyword(r) && missing(r) !in tz
    ensures Classify(tz) == None
  {
    forall r ensures !Contains(tz, Keyword(r)) {
      MissingCharRulesOut(tz, Keyword(r), missing(r));
    }
    ClassifyFails(tz);
  }

  /** `a` and `b` are the first two letters of some keyword: "No", "So", "Eu", "As", "Oc" or "Af". */
  predicate Opening(a: char, b: char) {
    ((a == 'N' || a == 'S') && b == 'o') || (a == 'E' && b == 'u')
    || (a == 'A' && (b == 's' || b == 'f')) || (a == 'O' && b == 'c')
  }

  /** No two adjacent characters of `tz` open a keyword. */
  predicate OpeningFree(tz: string) {
    forall j | 0 <= j < |tz| - 1 :: !Opening(tz[j], tz[j + 1])
  }

  /** An identifier in which no keyword's first two letters stand side by side has no region. */
  lemma UnclassifiedWithoutOpenings(tz: string)
    requires OpeningFree(tz)
    ensures Classify(tz) == None
  {
    forall r ensures !Contains(tz, Keyword(r)) {
      var p := Keyword(r);
      assert Opening(p[0], p[1]) by {
        match r
        case NorthAmerica =>
        case SouthAmerica =>
        case Europe =>
        case Asia =>
        case Oceania =>
        case Africa =>
      }
      forall j ensures !PairAt(tz, j, p[0], p[1]) {
      }
      MissingPairRulesOut(tz, p, 0, p[0], p[1]);
    }
    ClassifyFails(tz);
  }

  /*
   * The curated "America/…", "Australia/…" and "Pacific/…" entries, one at a
   * time: none holds a keyword's first two letters side by side, except
   * "Pacific/Noumea" with the "No" of "Noumea".
   */

  lemma NewYorkOpeningFree()
    ensures OpeningFree("America/New_York")
  {
    var tz := "America/New_York";
    forall j | 0 <= j < |tz| - 1 ensures !Opening(tz[j], tz[j + 1]) {
      assert tz[j] in tz;
    }
  }

  lemma LosAngelesOpeningFree()
    ensures OpeningFree("America/Los_Angeles")
  {
    var tz := "America/Los_Angeles";
    forall j | 0 <= j < |tz| - 1 ensures !Opening(tz[j], tz[j + 1]) {
      assert tz[j] in tz;
    }
  }

  lemma ChicagoOpeningFree()
    ensures OpeningFree("America/Chicago")
  {
    var tz := "America/Chicago";
    forall j | 0 <= j < |tz| - 1 ensures !Opening(tz[j], tz[j + 1]) {
      assert tz[j] in tz;
    }
  }

  lemma TorontoOpeningFree()
    ensures OpeningFree("America/Toronto")
  {
    var tz := "America/Toronto";
    forall j | 0 <= j < |tz| - 1 ensures !Opening(tz[j], tz[j + 1]) {
      assert tz[j] in tz;
    }
  }

  lemma VancouverOpeningFree()
    ensures OpeningFree("America/Vancouver")
  {
    var tz := "America/Vancouver";
    forall j | 0 <= j < |tz| - 1 ensures !Opening(tz[j], tz[j + 1]) {
      assert tz[j] in tz;
    }
  }

  lemma MexicoCityOpeningFree()
    ensures OpeningFree("America/Mexico_City")
  {
    var tz := "America/Mexico_City";
    forall j | 0 <= j < |tz| - 1 ensures !Opening(tz[j], tz[j + 1]) {
      assert tz[j] in tz;
    }
  }

  lemma PanamaOpeningFree()
    ensures OpeningFree("America/Panama")
  {
    var tz := "America/Panama";
    forall j | 0 <= j < |tz| - 1 ensures !Opening(tz[j], tz[j + 1]) {
      assert tz[j] in tz;
    }
  }

  lemma HavanaOpeningFree()
    ensures OpeningFree("America/Havana")
  {
    var tz := "America/Havana";
    forall j | 0 <= j < |tz| - 1 ensures !Opening(tz[j], tz[j + 1]) {
      assert tz[j] in tz;
    }
  }

  lemma SaoPauloOpeningFree()
    ensures OpeningFree("America/Sao_Paulo")
  {
    var tz := "America/Sao_Paulo";
    forall j | 0 <= j < |tz| - 1 ensures !Opening(tz[j], tz[j + 1]) {
      assert tz[j] in tz;
    }
  }

  lemma BuenosAiresOpeningFree()
    ensures OpeningFree("America/Buenos_Aires")
  {
    var tz := "America/Buenos_Aires";
    forall j | 0 <= j < |tz| - 1 ensures !Opening(tz[j], tz[j + 1]) {
      assert tz[j] in tz;
    }
  }

  lemma SantiagoOpeningFree()
    ensures OpeningFree("America/Santiago")
  {
    var tz := "America/Santiago";
    forall j | 0 <= j < |tz| - 1 ensures !Opening(tz[j], tz[j + 1]) {
      assert tz[j] in tz;
    }
  }

  lemma LimaOpeningFree()
    ensures OpeningFree("America/Lima")
  {
    var tz := "America/Lima";
    forall j | 0 <= j < |tz| - 1 ensures !Opening(tz[j], tz[j + 1]) {
      assert tz[j] in tz;
    }
  }

  lemma BogotaOpeningFree()
    ensures OpeningFree("America/Bogota")
  {
    var tz := "America/Bogota";
    forall j | 0 <= j < |tz| - 1 ensures !Opening(tz[j], tz[j + 1]) {
      assert tz[j] in tz;
    }
  }

  lemma SydneyOpeningFree()
    ensures OpeningFree("Australia/Sydney")
  {
    var tz := "Australia/Sydney";
    forall j | 0 <= j < |tz| - 1 ensures !Opening(tz[j], tz[j + 1]) {
      assert tz[j] in tz;
    }
  }

  lemma MelbourneOpeningFree()
    ensures OpeningFree("Australia/Melbourne")
  {
    var tz := "Australia/Melbourne";
    forall j | 0 <= j < |tz| - 1 ensures !Opening(tz[j], tz[j + 1]) {
      assert tz[j] in tz;
    }
  }

  lemma BrisbaneOpeningFree()
    ensures OpeningFree("Australia/Brisbane")
  {
    var tz := "Australia/Brisbane";
    forall j | 0 <= j < |tz| - 1 ensures !Opening(tz[j], tz[j + 1]) {
      assert tz[j] in tz;
    }
  }

  lemma PerthOpeningFree()
    ensures OpeningFree("Australia/Perth")
  {
    var tz := "Australia/Perth";
    forall j | 0 <= j < |tz| - 1 ensures !Opening(tz[j], tz[j + 1]) {
      assert tz[j] in tz;
    }
  }

  lemma AucklandOpeningFree()
    ensures OpeningFree("Pacific/Auckland")
  {
    var tz := "Pacific/Auckland";
    forall j | 0 <= j < |tz| - 1 ensures !Opening(tz[j], tz[j + 1]) {
      assert tz[j] in tz;
    }
  }

  lemma FijiOpeningFree()
    ensures OpeningFree("Pacific/Fiji")
  {
    var tz := "Pacific/Fiji";
    forall j | 0 <= j < |tz| - 1 ensures !Opening(tz[j], tz[j + 1]) {
      assert tz[j] in tz;
    }
  }

  lemma HonoluluOpeningFree()
    ensures OpeningFree("Pacific/Honolulu")
  {
    var tz := "Pacific/Honolulu";
    forall j | 0 <= j < |tz| - 1 ensures !Opening(tz[j], tz[j + 1]) {
      assert tz[j] in tz;
    }
  }

  lemma PortMoresbyOpeningFree()
    ensures OpeningFree("Pacific/Port_Moresby")
  {
    var tz := "Pacific/Port_Moresby";
    forall j | 0 <= j < |tz| - 1 ensures !Opening(tz[j], tz[j + 1]) {
      assert tz[j] in tz;
    }
  }

  lemma GuadalcanalOpeningFree()
    ensures OpeningFree("Pacific/Guadalcanal")
  {
    var tz := "Pacific/Guadalcanal";
    forall j | 0 <= j < |tz| - 1 ensures !Opening(tz[j], tz[j + 1]) {
      assert tz[j] in tz;
    }
  }

  /** For each region, a letter of its keyword that "Pacific/Noumea" lacks. */
  function NoumeaMissing(r: Region): char {
    match r
    case NorthAmerica => 'h'
    case SouthAmerica => 'S'
    case Europe => 'E'
    case Asia => 'A'
    case Oceania => 'O'
    case Africa => 'A'
  }

  lemma NoumeaLacksKeywordLetters()
    ensures forall r :: NoumeaMissing(r) in Keyword(r) && NoumeaMissing(r) !in "Pacific/Noumea"
  {
    forall r ensures NoumeaMissing(r) in Keyword(r) && NoumeaMissing(r) !in "Pacific/Noumea" {
      match r
      case NorthAmerica =>
      case SouthAmerica =>
      case Europe =>
      case Asia =>
      case Oceania =>
      case Africa =>
    }
  }

  lemma NorthAmericaBlockUnclassified()
    ensures forall tz | tz in NorthAmericaBlock :: Classify(tz) == None
  {
    NewYorkOpeningFree();
    LosAngelesOpeningFree();
    ChicagoOpeningFree();
    TorontoOpeningFree();
    VancouverOpeningFree();
    MexicoCityOpeningFree();
    PanamaOpeningFree();
    HavanaOpeningFree();
    forall tz | tz in NorthAmericaBlock ensures Classify(tz) == None {
      UnclassifiedWithoutOpenings(tz);
    }
  }

  lemma SouthAmericaBlockUnclassified()
    ensures forall tz | tz in SouthAmericaBlock :: Classify(tz) == None
  {
    SaoPauloOpeningFree();
    BuenosAiresOpeningFree();
    SantiagoOpeningFree();
    LimaOpeningFree();
    BogotaOpeningFree();
    forall tz | tz in SouthAmericaBlock ensures Classify(tz) == None {
      UnclassifiedWithoutOpenings(tz);
    }
  }

  lemma OceaniaBlockUnclassified()
    ensures forall tz | tz in OceaniaBlock :: Classify(tz) == None
  {
    SydneyOpeningFree();
    MelbourneOpeningFree();
    BrisbaneOpeningFree();
    PerthOpeningFree();
    AucklandOpeningFree();
    FijiOpeningFree();
    HonoluluOpeningFree();
    forall tz | tz in OceaniaBlock ensures Classify(tz) == None {
      UnclassifiedWithoutOpenings(tz);
    }
  }

  lemma SouthPacificBlockUnclassified()
    ensures forall tz | tz in SouthPacificBlock :: Classify(tz) == None
  {
    PortMoresbyOpeningFree();
    GuadalcanalOpeningFree();
    NoumeaLacksKeywordLetters();
    UnclassifiedWhenLettersMissing("Pacific/Noumea", NoumeaMissing);
    forall tz | tz in SouthPacificBlock ensures Classify(tz) == None {
      if tz != "Pacific/Noumea" {
        UnclassifiedWithoutOpenings(tz);
      }
    }
  }

  /**
   * No keyword occurs in any curated entry of the North America, South
   * America, Oceania and South Pacific blocks, so each of them would stop
   * the overview loop.
   */
  lemma AmericasAndPacificUnclassified()
    ensures forall tz | tz in NorthAmericaBlock + SouthAmericaBlock + OceaniaBlock + SouthPacificBlock :: Classify(tz) == None
  {
    NorthAmericaBlockUnclassified();
    SouthAmericaBlockUnclassified();
    OceaniaBlockUnclassified();
    SouthPacificBlockUnclassified();
  }

  /** No region's keyword occurs in "America/New_York". */
  lemma NewYorkUnclassified()
    ensures Classify("America/New_York") == None
  {
    NewYorkOpeningFree();
    UnclassifiedWithoutOpenings("America/New_York");
  }

  /** As written, the overview stops with `StopIteration` at the very first curated entry. */
  lemma OverviewCrashesAtFirstEntry()
    ensures MajorTimezones[0] == "America/New_York"
    ensures Group(Classify, MajorTimezones) == Failure(0)
  {
    NewYorkUnclassified();
    assert MajorTimezones[0] == NorthAmericaBlock[0];
    GroupStopsAtFirst(Classify, MajorTimezones);
  }

  /** Where the heuristic does work, the keyword sits in front of the slash. */
  lemma LondonClassified()
    ensures Classify("Europe/London") == Some(Europe)
  {
    var tz := "Europe/London";
    MissingCharRulesOut(tz, "North", 'h');
    MissingCharRulesOut(tz, "South", 'h');
    assert Scan(tz, "Europe", 0, 0);
    ClassifyIsFirstInDeclarationOrder(tz, Europe);
  }

  /**
   * The region each curated entry is listed under, by the comment heading
   * its block ("Central Asia" entries under Asia, "South Pacific" ones
   * under Oceania); `None` for an identifier not in the curated list.
   */
  function IntendedRegion(tz: string): (r: Option<Region>)
    ensures r.None? <==> tz !in MajorTimezones
  {
    if tz in NorthAmericaBlock then Some(NorthAmerica)
    else if tz in SouthAmericaBlock then Some(SouthAmerica)
    else if tz in EuropeBlock then Some(Europe)
    else if tz in AsiaBlock || tz in CentralAsiaBlock then Some(Asia)
    else if tz in OceaniaBlock || tz in SouthPacificBlock then Some(Oceania)
    else if tz in AfricaBlock then Some(Africa)
    else None
  }

  /**
   * With the table, the overview completes and prints every curated entry
   * exactly once, each under one region.
   */
  lemma CorrectedOverviewCovers()
    ensures Group(IntendedRegion, MajorTimezones).Success?
    ensures multiset(Printed(SectionsFrom(Group(IntendedRegion, MajorTimezones).value, 0))) == multiset(MajorTimezones)
  {
    assert forall j :: 0 <= j < |MajorTimezones| ==> IntendedRegion(MajorTimezones[j]).Some?;
    OverviewPrintsEachEntryOnce(IntendedRegion, MajorTimezones);
  }
}
