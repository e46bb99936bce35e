/**
 * The command line of `main`: which of the four modes the parsed options
 * select, and what each mode reports.
 */
module Cli {
  import opened Wrappers
  import opened Zeno
  import opened Regions

  /** The parsed options: `-t/--timezone`, `-s/--search` and the `-l/--list` flag. */
  datatype Args = Args(timezone: Option<string>, search: Option<string>, list: bool)

  /** Python truthiness of an optional string option: given, and not the empty string. */
  predicate Truthy(o: Option<string>) {
    o.Some? && o.value != []
  }

  datatype Mode = ShowTimezone(timezone: string) | SearchZones(query: string) | ListZones | WorldOverview

  /** The `if`/`elif`/`else` chain of `main`. */
  function Dispatch(args: Args): (m: Mode)
    ensures m.ShowTimezone? <==> Truthy(args.timezone)
    ensures m.SearchZones? <==> !Truthy(args.timezone) && Truthy(args.search)
    ensures m.ListZones? <==> !Truthy(args.timezone) && !Truthy(args.search) && args.list
    ensures m.WorldOverview? <==> !Truthy(args.timezone) && !Truthy(args.search) && !args.list
    ensures m.ShowTimezone? ==> m.timezone == args.timezone.value
    ensures m.SearchZones? ==> m.query == args.search.value
  {
    if Truthy(args.timezone) then ShowTimezone(args.timezone.value)
    else if Truthy(args.search) then SearchZones(args.search.value)
    else if args.list then ListZones
    else WorldOverview
  }

  /** A non-empty `-t` wins whatever else is given. */
  lemma TimezoneOverridesRest(args: Args, search: Option<string>, list: bool)
    requires Truthy(args.timezone)
    ensures Dispatch(args) == Dispatch(Args(args.timezone, search, list))
  {
  }

  /** An empty `-t ""` or `-s ""` counts as not given. */
  lemma EmptyOptionFallsThrough(args: Args)
    ensures Dispatch(args.(timezone := Some(""))) == Dispatch(args.(timezone := None))
    ensures Dispatch(args.(search := Some(""))) == Dispatch(args.(search := None))
  {
  }

  /** What one run of the program reports; `T` stands for a resolved time. */
  datatype Output<T> =
    | TimeOutput(line: Line<T>)
    | MatchOutput(lines: seq<Line<T>>)
    | NoMatchOutput(query: string)
    | ListOutput(zones: seq<string>)
    | OverviewOutput(blocks: seq<(Region, seq<Line<T>>)>)
    | StopIterationAt(index: nat)

  /** `display_time` applied to each identifier in turn, `now` standing for `get_current_time`. */
  function Lines<T>(zones: seq<string>, now: string -> Option<T>): (r: seq<Line<T>>)
    ensures |r| == |zones|
    ensures forall i :: 0 <= i < |zones| ==> r[i] == DisplayTime(zones[i], now(zones[i]))
  {
    if zones == [] then [] else [DisplayTime(zones[0], now(zones[0]))] + Lines(zones[1..], now)
  }

  /**
   * Every identifier gets one line, in order, and the line is the error
   * message exactly when the database does not know the identifier.
   */
  lemma LinesReportUnknown<T>(zones: seq<string>, now: string -> Option<T>, i: nat)
    requires i < |zones|
    ensures Lines(zones, now)[i].zone == zones[i]
    ensures Lines(zones, now)[i].InvalidTimezone? <==> now(zones[i]).None?
  {
  }

  /** `for tz in zones: zeno.display_time(tz)`. */
  method DisplayAll<T>(zones: seq<string>, now: string -> Option<T>) returns (lines: seq<Line<T>>)
    ensures lines == Lines(zones, now)
  {
    lines := [];
    var i := 0;
    while i < |zones|
      invariant 0 <= i <= |zones|
      invariant |lines| == i
      invariant forall j :: 0 <= j < i ==> lines[j] == DisplayTime(zones[j], now(zones[j]))
    {
      lines := lines + [DisplayTime(zones[i], now(zones[i]))];
      i := i + 1;
    }
  }

  /** The overview's blocks: each section's header with the lines of its identifiers. */
  function Blocks<T>(sections: seq<Section>, now: string -> Option<T>): (b: seq<(Region, seq<Line<T>>)>)
    ensures |b| == |sections|
    ensures forall i :: 0 <= i < |sections| ==> b[i] == (sections[i].region, Lines(sections[i].zones, now))
  {
    if sections == [] then [] else [(sections[0].region, Lines(sections[0].zones, now))] + Blocks(sections[1..], now)
  }

  /** What `list_all_times` reports over the list `zones` with the classification `classify`. */
  function Overview<T>(classify: string -> Option<Region>, zones: seq<string>, now: string -> Option<T>): Output<T> {
    match Group(classify, zones)
    case Failure(k) => StopIterationAt(k)
    case Success(regions) => OverviewOutput(Blocks(SectionsFrom(regions, 0), now))
  }

  /** `main` after argument parsing, over the identifiers the database lists. */
  method Run<T>(args: Args, database: seq<string>, now: string -> Option<T>) returns (out: Output<T>)
    ensures Dispatch(args).ShowTimezone? ==> out == TimeOutput(DisplayTime(args.timezone.value, now(args.timezone.value)))
    ensures Dispatch(args).SearchZones? ==>
      (var matches := Init(database).SearchTimezone(args.search.value);
       out == if matches == [] then NoMatchOutput(args.search.value) else MatchOutput(Lines(matches, now)))
    ensures Dispatch(args).ListZones? ==> out == ListOutput(Init(database).allTimezones)
    ensures Dispatch(args).WorldOverview? ==> out == Overview(Classify, MajorTimezones, now)
  {
    var zeno := Init(database);
    match Dispatch(args) {
      case ShowTimezone(tz) =>
        out := TimeOutput(DisplayTime(tz, now(tz)));
      case SearchZones(query) =>
        var matches := zeno.SearchTimezone(query);
        if matches != [] {
          var lines := DisplayAll(matches, now);
          out := MatchOutput(lines);
        } else {
          out := NoMatchOutput(query);
        }
      case ListZones =>
        out := ListOutput(zeno.allTimezones);
      case WorldOverview =>
        out := ShowOverview(Classify, MajorTimezones, now);
    }
  }

  /** `list_all_times` followed by `display_time` for every identifier of every section. */
  method ShowOverview<T>(classify: string -> Option<Region>, zones: seq<string>, now: string -> Option<T>)
    returns (out: Output<T>)
    ensures out == Overview(classify, zones, now)
  {
    var listed := ListAllTimes(classify, zones);
    match listed {
      case Failure(k) =>
        out := StopIterationAt(k);
      case Success(sections) =>
        var blocks := DisplaySections(sections, now);
        out := OverviewOutput(blocks);
    }
  }

  /** The printing loop over the sections, one block of lines per section. */
  method DisplaySections<T>(sections: seq<Section>, now: string -> Option<T>) returns (blocks: seq<(Region, seq<Line<T>>)>)
    ensures blocks == Blocks(sections, now)
  {
    blocks := [];
    var i := 0;
    while i < |sections|
      invariant 0 <= i <= |sections|
      invariant |blocks| == i
      invariant forall j :: 0 <= j < i ==> blocks[j] == (sections[j].region, Lines(sections[j].zones, now))
    {
      var lines := DisplayAll(sections[i].zones, now);
      blocks := blocks + [(sections[i].region, lines)];
      i := i + 1;
    }
  }

  /** Run with no options, the program stops at the first curated entry instead of printing. */
  lemma DefaultModeCrashes<T>(now: string -> Option<T>)
    ensures Dispatch(Args(None, None, false)) == WorldOverview
    ensures Overview(Classify, MajorTimezones, now) == StopIterationAt(0)
  {
    OverviewCrashesAtFirstEntry();
  }

  /**
   * With the intended table instead, the overview prints one line per
   * curated entry, under the headers of non-empty regions in declaration order.
   */
  lemma CorrectedOverviewPrintsAll<T>(now: string -> Option<T>)
    ensures Overview(IntendedRegion, MajorTimezones, now).OverviewOutput?
    ensures var regions := Group(IntendedRegion, MajorTimezones).value;
      var blocks := Overview(IntendedRegion, MajorTimezones, now).blocks;
      |blocks| == |SectionsFrom(regions, 0)|
      && forall i :: 0 <= i < |blocks| ==> blocks[i].0 == SectionsFrom(regions, 0)[i].region
  {
    CorrectedOverviewCovers();
  }
}
