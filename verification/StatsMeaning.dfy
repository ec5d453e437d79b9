/** What the counters of a run mean: each is the sum, over the replies it is about, of what it measures. */
module StatsMeaning {
  import opened RunStats
  import opened StatsMerge

  /** The commands that are counted apart. */
  datatype Group = Sets | Gets | Waits | Numbered(index: nat)

  datatype Measure = Ops | Bytes | Latency | Moved | Asked | Hits | Misses

  /** The replies a group is about; a redirected SET or GET is still a SET or GET. */
  predicate About(u: Update, g: Group) {
    match g
    case Sets => u.kind.Set? || u.kind.MovedSet? || u.kind.AskSet?
    case Gets => u.kind.Get? || u.kind.MovedGet? || u.kind.AskGet?
    case Waits => u.kind.Wait?
    case Numbered(i) => u.kind.Arbitrary? && u.kind.index == i
  }

  function Weight(u: Update, m: Measure): nat {
    match m
    case Ops => 1
    case Bytes => u.bytes
    case Latency => u.latency
    case Moved => if u.kind.MovedSet? || u.kind.MovedGet? then 1 else 0
    case Asked => if u.kind.AskSet? || u.kind.AskGet? then 1 else 0
    case Hits => if u.kind.Get? then u.kind.hits else 0
    case Misses => if u.kind.Get? then u.kind.misses else 0
  }

  function Total(us: seq<Update>, g: Group, m: Measure): nat
    decreases |us|
  {
    if us == [] then 0
    else Total(us[..|us| - 1], g, m) + if About(us[|us| - 1], g) then Weight(us[|us| - 1], m) else 0
  }

  function Counter(c: Cmd, m: Measure): nat {
    match m
    case Ops => c.ops
    case Bytes => c.bytes
    case Latency => c.latency
    case Moved => c.moved
    case Asked => c.ask
    case Hits => c.hits
    case Misses => c.misses
  }

  function Part(c: Counters, g: Group): Cmd
    requires g.Numbered? ==> g.index < |c.arbitrary|
  {
    match g
    case Sets => c.sets
    case Gets => c.gets
    case Waits => c.waits
    case Numbered(i) => c.arbitrary[i]
  }

  lemma ContributionMeans(u: Update, n: nat, g: Group, m: Measure)
    requires Valid(u, n) && (g.Numbered? ==> g.index < n)
    ensures Counter(Part(Contribution(u, n), g), m) == if About(u, g) then Weight(u, m) else 0
  {
  }

  lemma PartsAdd(a: Counters, b: Counters, g: Group, m: Measure)
    requires |a.arbitrary| == |b.arbitrary| && (g.Numbered? ==> g.index < |a.arbitrary|)
    ensures Counter(Part(Add(a, b), g), m) == Counter(Part(a, g), m) + Counter(Part(b, g), m)
  {
  }

  lemma {:induction false} TallyMeans(us: seq<Update>, n: nat, g: Group, m: Measure)
    requires AllValid(us, n) && (g.Numbered? ==> g.index < n)
    ensures Counter(Part(Tally(us, n), g), m) == Total(us, g, m)
    decreases |us|
  {
    if us != [] {
      hide Contribution, Add, Part, Counter, Weight, About;
      var rest, u := us[..|us| - 1], us[|us| - 1];
      TallyMeans(rest, n, g, m);
      PartsAdd(Tally(rest, n), Contribution(u, n), g, m);
      ContributionMeans(u, n, g, m);
    }
  }

  /** Over a whole run of one client, every counter of every command, summed over the seconds, is the total of what it
      measures over the replies it is about. */
  lemma RunMeans(us: seq<Update>, n: nat, g: Group, m: Measure)
    requires AllValid(us, n) && (g.Numbered? ==> g.index < n)
    ensures var l := Finish(Run(n, us)); Shaped(l, n) && Counter(Part(Sum(l, n), g), m) == Total(us, g, m)
  {
    hide Run, Sum, Tally, Part, Counter, Finish;
    RunAccounts(us, n);
    TallyMeans(us, n, g, m);
  }

  /** The same for the merged statistics of any number of clients. */
  lemma MergedMeans(runs: seq<seq<Update>>, n: nat, g: Group, m: Measure)
    requires Clients(runs, n) && (g.Numbered? ==> g.index < n)
    ensures AllValid(Flat(runs), n) && Shaped(MergeAll(runs, n), n)
    ensures Counter(Part(Sum(MergeAll(runs, n), n), g), m) == Total(Flat(runs), g, m)
  {
    hide MergeAll, Sum, Tally, Part, Counter, Flat;
    MergedTally(runs, n);
    TallyMeans(Flat(runs), n, g, m);
  }
}
