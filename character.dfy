/** The `Character` class of src/character.py: a name and a dict of stats. */
module Character {
  import opened Common
  import opened Strings
  import opened Tables

  const StatsHeader := "**Stats:**\n"

  class Character {
    const name: string
    var stats: seq<(string, string)>

    ghost predicate Valid()
      reads this
    {
      DistinctKeys(stats)
    }

    constructor(name: string)
      ensures this.name == name && stats == [] && Valid()
    {
      this.name := name;
      stats := [];
    }

    /** `str(c)` */
    function ToString(): (s: string)
      ensures s == name
    {
      name
    }

    /** `set_stats(d)`: `self.stats.update(d)`. */
    method SetStats(d: seq<(string, string)>)
      requires Valid() && DistinctKeys(d)
      modifies this
      ensures Valid() && stats == Update(old(stats), d)
      ensures forall k :: Lookup(stats, k) == if k in Keys(d) then Lookup(d, k) else Lookup(old(stats), k)
      ensures |old(stats)| <= |stats| && Keys(stats)[..|old(stats)|] == Keys(old(stats))
    {
      forall k
        ensures Lookup(Update(stats, d), k) == if k in Keys(d) then Lookup(d, k) else Lookup(stats, k)
      {
        UpdateLookup(stats, d, k);
      }
      UpdateKeys(stats, d);
      stats := Update(stats, d);
    }

    /** `get_stats()`: the header line, then one `key:value` line per stat. */
    function GetStats(): (s: string)
      reads this
      ensures |s| >= |StatsHeader| && s[..|StatsHeader|] == StatsHeader
      ensures stats == [] ==> s == StatsHeader
      ensures stats != [] && OneLine(stats) ==> SplitOn(s, '\n') == ["**Stats:**"] + Lines(stats)
    {
      StatsLines(stats);
      StatsHeader + Listing(stats)
    }
  }

  /** The header and the listing split into the header line and the stat lines. */
  lemma StatsLines(t: seq<(string, string)>)
    ensures t != [] && OneLine(t) ==> SplitOn(StatsHeader + Listing(t), '\n') == ["**Stats:**"] + Lines(t)
  {
    if t != [] && OneLine(t) {
      ListingLines(t);
      assert StatsHeader + Listing(t) == "**Stats:**" + ['\n'] + Listing(t);
      SplitOnPrefix("**Stats:**", Listing(t), '\n');
    }
  }
}
