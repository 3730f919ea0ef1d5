/** Assignment of alsaloop jobs to threads: the thread ids asked for are first
    relabelled in place to dense ranks, then every job is put into the thread of its rank. */
module Threads {

  const INT_MAX := 0x7fff_ffff

  predicate IsInt(x: int) {
    -INT_MAX - 1 <= x <= INT_MAX
  }

  // ----- ranks -----

  /** The different ids smaller than `x`. Negative ids never take part in the ranking. */
  function Below(ids: seq<int>, x: int): set<int> {
    set v | v in ids && 0 <= v < x
  }

  /** The number of different non-negative ids smaller than `x`. */
  function Rank(ids: seq<int>, x: int): nat {
    |Below(ids, x)|
  }

  function RankCount(ids: seq<int>): nat {
    |set v | v in ids && 0 <= v|
  }

  /** The ids after renumbering: ranks, except that negative ids stay as they are. */
  function Renumbered(ids: seq<int>): (r: seq<int>)
    ensures |r| == |ids|
  {
    seq(|ids|, i requires 0 <= i < |ids| => if ids[i] < 0 then ids[i] else Rank(ids, ids[i]))
  }

  lemma SmallerSet(a: set<int>, b: set<int>)
    requires a <= b
    ensures |a| <= |b|
    ensures a != b ==> |a| < |b|
  {
    assert b == a + (b - a);
  }

  lemma RankIsMonotone(ids: seq<int>, x: int, y: int)
    requires x in ids && 0 <= x && x < y
    ensures Rank(ids, x) < Rank(ids, y)
  {
    assert x in Below(ids, y) && x !in Below(ids, x);
    SmallerSet(Below(ids, x), Below(ids, y));
  }

  /** Ranks keep equality and order between any two non-negative ids, and stay below the number
      of different ones. */
  lemma RanksKeepOrder(ids: seq<int>, x: int, y: int)
    requires x in ids && y in ids && 0 <= x && 0 <= y
    ensures x == y <==> Rank(ids, x) == Rank(ids, y)
    ensures x < y <==> Rank(ids, x) < Rank(ids, y)
    ensures Rank(ids, x) < RankCount(ids)
  {
    if x < y { RankIsMonotone(ids, x, y); }
    if y < x { RankIsMonotone(ids, y, x); }
    var all := set v | v in ids && 0 <= v;
    assert x in all && x !in Below(ids, x);
    SmallerSet(Below(ids, x), all);
  }

  lemma SomeMember<T>(s: set<T>) returns (x: T)
    requires s != {}
    ensures x in s
  {
    x :| x in s;
  }

  lemma MaxOf(s: set<int>) returns (m: int)
    requires s != {}
    ensures m in s && forall v :: v in s ==> v <= m
    decreases |s|
  {
    m := SomeMember(s);
    if s != {m} {
      assert s == (s - {m}) + {m};
      var n := MaxOf(s - {m});
      if n > m { m := n; }
    }
  }

  lemma {:induction false} EveryPlaceIsTaken(s: set<int>, r: nat) returns (x: int)
    requires r < |s|
    ensures x in s && |set v | v in s && v < x| == r
    decreases |s|
  {
    var m := MaxOf(s);
    var rest := s - {m};
    assert s == rest + {m};
    if r == |s| - 1 {
      x := m;
      assert (set v | v in s && v < m) == rest;
    } else {
      x := EveryPlaceIsTaken(rest, r);
      assert (set v | v in s && v < x) == (set v | v in rest && v < x);
    }
  }

  /** No rank below the number of different ids is left out. */
  lemma RanksAreDense(ids: seq<int>, r: nat)
    requires r < RankCount(ids)
    ensures exists i :: 0 <= i < |ids| && Renumbered(ids)[i] == r
  {
    var all := set v | v in ids && 0 <= v;
    var x := EveryPlaceIsTaken(all, r);
    assert (set v | v in all && v < x) == Below(ids, x);
    var i :| 0 <= i < |ids| && ids[i] == x;
    assert Renumbered(ids)[i] == r;
  }

  // ----- distribution -----

  /** The positions that hold `k`, in order. */
  function Positions(ids: seq<int>, k: int): (p: seq<nat>)
    ensures forall m :: 0 <= m < |p| ==> p[m] < |ids| && ids[p[m]] == k
    ensures forall i :: 0 <= i < |ids| && ids[i] == k ==> i in p
    ensures forall a, b :: 0 <= a < b < |p| ==> p[a] < p[b]
  {
    if ids == [] then []
    else
      var n := |ids| - 1;
      var p := Positions(ids[..n], k);
      if ids[n] == k then p + [n] else p
  }

  ghost predicate HasThread(ids: seq<int>, i: nat) {
    exists k :: 0 <= k < RankCount(ids) && i in Positions(Renumbered(ids), k)
  }

  /** After renumbering, every job with a non-negative id is in exactly one of the threads, at
      exactly one place; no thread is empty; jobs keep their order inside a thread. A job
      belongs to some thread if and only if its id was not negative. */
  lemma ThreadsPartitionJobs(ids: seq<int>)
    ensures forall k :: 0 <= k < RankCount(ids) ==> Positions(Renumbered(ids), k) != []
    ensures forall i :: 0 <= i < |ids| ==> (0 <= ids[i] <==> HasThread(ids, i))
    ensures forall i, k, l :: i in Positions(Renumbered(ids), k) && i in Positions(Renumbered(ids), l) ==> k == l
    ensures forall k, a, b :: 0 <= a < b < |Positions(Renumbered(ids), k)| ==>
              Positions(Renumbered(ids), k)[a] < Positions(Renumbered(ids), k)[b]
  {
    var ranks := Renumbered(ids);
    forall k | 0 <= k < RankCount(ids)
      ensures Positions(ranks, k) != []
    {
      RanksAreDense(ids, k);
      var i :| 0 <= i < |ids| && ranks[i] == k;
      assert i in Positions(ranks, k);
    }
    forall i | 0 <= i < |ids|
      ensures 0 <= ids[i] <==> HasThread(ids, i)
    {
      if 0 <= ids[i] {
        RanksKeepOrder(ids, ids[i], ids[i]);
        assert i in Positions(ranks, ranks[i]);
      }
    }
  }

  // ----- the numbers that are asked for -----

  const UNIQUE := 10000000

  /** The option for the thread number, when `count` jobs have been added before: a negative number asks
      for a thread of the job's own. */
  function ThreadId(request: int, count: nat): (id: int)
    ensures id >= 0
  {
    if request < 0 then UNIQUE + count else request
  }

  function ParsedIds(requests: seq<int>): (ids: seq<int>)
    ensures |ids| == |requests| && forall i :: 0 <= i < |ids| ==> ids[i] == ThreadId(requests[i], i)
  {
    seq(|requests|, i requires 0 <= i < |requests| => ThreadId(requests[i], i))
  }

  /** The jobs in the thread of job `i`. */
  function ThreadOf(requests: seq<int>, i: nat): seq<nat>
    requires i < |requests|
  {
    var ranks := Renumbered(ParsedIds(requests));
    Positions(ranks, ranks[i])
  }

  /** Whatever numbers are asked for, every job is in exactly one thread. */
  lemma EveryJobHasOneThread(requests: seq<int>, i: nat)
    requires i < |requests|
    ensures HasThread(ParsedIds(requests), i)
    ensures forall k :: i in Positions(Renumbered(ParsedIds(requests)), k) ==>
              Positions(Renumbered(ParsedIds(requests)), k) == ThreadOf(requests, i)
  {
    ThreadsPartitionJobs(ParsedIds(requests));
  }

  /** Two jobs share a thread exactly if they ask for the same number, or one of them asks for the
      number that the other, which wants a thread of its own, is given. */
  lemma SameThreadIff(requests: seq<int>, i: nat, j: nat)
    requires i < |requests| && j < |requests|
    ensures j in ThreadOf(requests, i) <==>
      || i == j || (requests[i] >= 0 && requests[i] == requests[j])
      || (requests[i] < 0 && requests[j] == 10000000 + i) || (requests[j] < 0 && requests[i] == 10000000 + j)
  {
    var ids := ParsedIds(requests);
    assert ids[i] in ids && ids[j] in ids;
    RanksKeepOrder(ids, ids[i], ids[j]);
  }

  /** A job that asks for a thread of its own has one, if and only if no job asks for its number. */
  lemma OwnThreadIff(requests: seq<int>, i: nat)
    requires i < |requests| && requests[i] < 0
    ensures ThreadOf(requests, i) == [i] <==> 10000000 + i !in requests
  {
    var p := ThreadOf(requests, i);
    forall j | 0 <= j < |requests|
      ensures j in p <==> j == i || requests[j] == UNIQUE + i
    {
      SameThreadIff(requests, i, j);
    }
    if UNIQUE + i !in requests {
      assert i in p;
      assert p[0] in p && p[|p| - 1] in p;
    } else {
      var j :| 0 <= j < |requests| && requests[j] == UNIQUE + i;
      assert j in p;
    }
  }

  // ----- the code of main -----

  class Job {
    var thread: int
    constructor (thread: int)
      ensures this.thread == thread
    {
      this.thread := thread;
    }
  }

  ghost function Ids(jobs: seq<Job>): (r: seq<int>)
    reads jobs
    ensures |r| == |jobs| && forall i :: 0 <= i < |jobs| ==> r[i] == jobs[i].thread
  {
    seq(|jobs|, i requires 0 <= i < |jobs| reads jobs => jobs[i].thread)
  }

  predicate Distinct(jobs: seq<Job>) {
    forall i, j :: 0 <= i < j < |jobs| ==> jobs[i] != jobs[j]
  }

  /** One pass: what the ids look like once everything up to `t` has been relabelled. */
  ghost predicate DoneUpTo(ids: seq<int>, now: seq<int>, t: int)
    requires |now| == |ids|
  {
    forall i :: 0 <= i < |ids| ==>
      now[i] == if 0 <= ids[i] <= t then Rank(ids, ids[i]) else ids[i]
  }

  /** The smallest id above `j`, or INT_MAX when there is none below that. */
  method NextId(jobs: seq<Job>, j: int) returns (k: int)
    ensures j < INT_MAX ==> j < k <= INT_MAX
    ensures k != INT_MAX ==> k in Ids(jobs)
    ensures forall i :: 0 <= i < |jobs| && jobs[i].thread > j ==> k <= jobs[i].thread || k == INT_MAX
    ensures forall i :: 0 <= i < |jobs| && j < jobs[i].thread < INT_MAX ==> k <= jobs[i].thread
  {
    k := INT_MAX;
    for i := 0 to |jobs|
      invariant j < INT_MAX ==> j < k <= INT_MAX
      invariant k != INT_MAX ==> k in Ids(jobs)
      invariant k <= INT_MAX
      invariant forall m :: 0 <= m < i && j < jobs[m].thread < INT_MAX ==> k <= jobs[m].thread
    {
      if jobs[i].thread < k && jobs[i].thread > j {
        k := jobs[i].thread;
        assert Ids(jobs)[i] == k;
      }
    }
  }

  method Relabel(jobs: seq<Job>, k: int, j: int)
    requires Distinct(jobs)
    modifies jobs
    ensures forall i :: 0 <= i < |jobs| ==>
              jobs[i].thread == if old(jobs[i].thread) == k then j else old(jobs[i].thread)
  {
    for i := 0 to |jobs|
      invariant forall m :: 0 <= m < i ==>
                  jobs[m].thread == if old(jobs[m].thread) == k then j else old(jobs[m].thread)
      invariant forall m :: i <= m < |jobs| ==> jobs[m].thread == old(jobs[m].thread)
    {
      if jobs[i].thread == k {
        jobs[i].thread := j;
      }
    }
  }

  /** One more value done: ids in between do not exist, so the rank of `k` is the number of
      ids done so far. */
  lemma NextRank(ids: seq<int>, t: int, k: int)
    requires -1 <= t < k && forall v :: v in ids && t < v ==> k <= v
    ensures Rank(ids, k) == Rank(ids, t + 1)
    ensures k in ids ==> Rank(ids, k + 1) == Rank(ids, k) + 1
  {
    assert Below(ids, k) == Below(ids, t + 1);
    if k in ids {
      assert Below(ids, k + 1) == Below(ids, k) + {k};
    }
  }

  /** The state between two passes: ids up to `t` are done, the last rank given is `j`. */
  ghost predicate Between(ids: seq<int>, now: seq<int>, t: int, j: int)
    requires |now| == |ids|
  {
    && -1 <= t <= INT_MAX && -1 <= j
    && (t < INT_MAX ==> j <= t && j + 1 == Rank(ids, t + 1))
    && DoneUpTo(ids, now, t)
  }

  /** What is found above the last rank is the smallest id not done yet. */
  lemma NextIsUndone(ids: seq<int>, now: seq<int>, t: int, j: int, k: int)
    requires |now| == |ids| && Between(ids, now, t, j) && t < INT_MAX
    requires forall i :: 0 <= i < |ids| ==> IsInt(ids[i])
    requires j < k <= INT_MAX && (k != INT_MAX ==> k in now)
    requires forall i :: 0 <= i < |ids| && j < now[i] < INT_MAX ==> k <= now[i]
    ensures t < k
    ensures forall v :: v in ids && t < v ==> k <= v
    ensures forall i :: 0 <= i < |ids| ==> (now[i] == k <==> ids[i] == k)
  {
    forall i | 0 <= i < |ids| && 0 <= ids[i] <= t
      ensures now[i] <= j
    {
      RankIsMonotone(ids, ids[i], t + 1);
    }
    forall v | v in ids && t < v
      ensures k <= v
    {
      var i :| 0 <= i < |ids| && ids[i] == v;
      assert now[i] == v;
    }
    if k != INT_MAX {
      var i :| 0 <= i < |now| && now[i] == k;
      assert ids[i] == k;
    }
  }

  lemma OnePass(ids: seq<int>, now: seq<int>, t: int, j: int, k: int, next: seq<int>)
    requires |next| == |now| == |ids| && Between(ids, now, t, j) && t < k <= INT_MAX
    requires k != INT_MAX ==> k in ids
    requires forall v :: v in ids && t < v ==> k <= v
    requires forall i :: 0 <= i < |ids| ==> (now[i] == k <==> ids[i] == k)
    requires forall i :: 0 <= i < |ids| ==> next[i] == if now[i] == k then j + 1 else now[i]
    ensures Between(ids, next, k, j + 1)
  {
    NextRank(ids, t, k);
    forall i | 0 <= i < |ids|
      ensures next[i] == if 0 <= ids[i] <= k then Rank(ids, ids[i]) else ids[i]
    {
      assert ids[i] in ids;
    }
  }

  /** The relabelling loop of main terminates and replaces the ids by their ranks. */
  method SortThreadIds(jobs: seq<Job>)
    requires Distinct(jobs)
    requires forall i :: 0 <= i < |jobs| ==> IsInt(jobs[i].thread)
    modifies jobs
    ensures Ids(jobs) == Renumbered(old(Ids(jobs)))
  {
    ghost var ids := Ids(jobs);
    ghost var t := -1;
    var j, k := -1, 0;
    assert Below(ids, 0) == {};
    while k != INT_MAX
      invariant Between(ids, Ids(jobs), t, j) && (k == INT_MAX <==> t == INT_MAX)
      decreases INT_MAX - t
    {
      ghost var now := Ids(jobs);
      k := NextId(jobs, j);
      NextIsUndone(ids, now, t, j, k);
      Relabel(jobs, k, j + 1);
      OnePass(ids, now, t, j, k, Ids(jobs));
      j := j + 1;
      t := k;
    }
  }

  /** The number of threads: one more than the largest id. */
  method CountThreads(jobs: seq<Job>) returns (count: int)
    ensures 0 <= count
    ensures forall i :: 0 <= i < |jobs| ==> jobs[i].thread < count
    ensures count == 0 || count - 1 in Ids(jobs)
  {
    var j := -1;
    for i := 0 to |jobs|
      invariant -1 <= j && forall m :: 0 <= m < i ==> jobs[m].thread <= j
      invariant j == -1 || j in Ids(jobs)
    {
      if jobs[i].thread > j {
        j := jobs[i].thread;
        assert Ids(jobs)[i] == j;
      }
    }
    count := j + 1;
  }

  /** The list of the jobs at the positions that hold `k`. */
  ghost predicate IsThread(members: seq<Job>, jobs: seq<Job>, ids: seq<int>, k: int)
    requires |ids| == |jobs|
  {
    && |members| == |Positions(ids, k)|
    && forall m :: 0 <= m < |members| ==> members[m] == jobs[Positions(ids, k)[m]]
  }

  lemma PositionsGrow(ids: seq<int>, i: nat, k: int)
    requires i < |ids|
    ensures Positions(ids[..i + 1], k)
         == if ids[i] == k then Positions(ids[..i], k) + [i] else Positions(ids[..i], k)
  {
    assert ids[..i + 1][..i] == ids[..i];
  }

  /** The counting pass that sizes the list of thread `k`. */
  method CountJobsOf(jobs: seq<Job>, k: int) returns (l: nat)
    ensures l == |Positions(Ids(jobs), k)|
  {
    ghost var ids := Ids(jobs);
    l := 0;
    for i := 0 to |jobs|
      invariant l == |Positions(ids[..i], k)|
    {
      PositionsGrow(ids, i, k);
      if jobs[i].thread == k { l := l + 1; }
    }
    assert ids[..|jobs|] == ids;
  }

  /** The storing pass: it fills the list of thread `k` exactly. */
  method JobsOf(jobs: seq<Job>, k: int) returns (members: seq<Job>)
    ensures IsThread(members, jobs, Ids(jobs), k)
  {
    ghost var ids := Ids(jobs);
    var l := CountJobsOf(jobs, k);
    members := [];
    for i := 0 to |jobs|
      invariant |members| == |Positions(ids[..i], k)|
      invariant forall m :: 0 <= m < |members| ==> members[m] == jobs[Positions(ids[..i], k)[m]]
    {
      PositionsGrow(ids, i, k);
      if jobs[i].thread == k { members := members + [jobs[i]]; }
    }
    assert ids[..|jobs|] == ids;
    assert |members| == l;
  }

  method FillThreads(jobs: seq<Job>, count: nat) returns (threads: seq<seq<Job>>)
    ensures |threads| == count
    ensures forall k :: 0 <= k < count ==> IsThread(threads[k], jobs, Ids(jobs), k)
  {
    threads := [];
    for k := 0 to count
      invariant |threads| == k
      invariant forall m :: 0 <= m < k ==> IsThread(threads[m], jobs, Ids(jobs), m)
    {
      var members := JobsOf(jobs, k);
      threads := threads + [members];
    }
  }

  /** The jobs of the command line or of a configuration file: each is added behind the others. */
  method ParseJobs(requests: seq<int>) returns (jobs: seq<Job>)
    requires UNIQUE + |requests| <= INT_MAX && forall i :: 0 <= i < |requests| ==> IsInt(requests[i])
    ensures Distinct(jobs) && fresh(jobs) && Ids(jobs) == ParsedIds(requests)
    ensures forall i :: 0 <= i < |jobs| ==> IsInt(jobs[i].thread)
  {
    jobs := [];
    for i := 0 to |requests|
      invariant |jobs| == i && Distinct(jobs) && fresh(jobs)
      invariant forall k :: 0 <= k < i ==> jobs[k].thread == ThreadId(requests[k], k) && IsInt(jobs[k].thread)
    {
      var thread := requests[i];
      if thread < 0 { thread := UNIQUE + |jobs|; }
      var loop := new Job(thread);
      jobs := jobs + [loop];
    }
  }

  /** All of it: after renumbering there are as many threads as different non-negative ids, and
      thread `k` holds the jobs whose id has rank `k`, in their original order. */
  method Distribute(jobs: seq<Job>) returns (threads: seq<seq<Job>>)
    requires Distinct(jobs)
    requires forall i :: 0 <= i < |jobs| ==> IsInt(jobs[i].thread)
    modifies jobs
    ensures |threads| == RankCount(old(Ids(jobs)))
    ensures forall k :: 0 <= k < |threads| ==> IsThread(threads[k], jobs, Renumbered(old(Ids(jobs))), k)
  {
    ghost var ids := Ids(jobs);
    SortThreadIds(jobs);
    var count := CountThreads(jobs);
    LargestRank(ids, count);
    threads := FillThreads(jobs, count);
  }

  lemma LargestRank(ids: seq<int>, count: int)
    requires 0 <= count && (forall i :: 0 <= i < |ids| ==> Renumbered(ids)[i] < count)
    requires count == 0 || count - 1 in Renumbered(ids)
    ensures count == RankCount(ids)
  {
    if count < RankCount(ids) {
      RanksAreDense(ids, count);
    }
    if count > 0 {
      var i :| 0 <= i < |ids| && Renumbered(ids)[i] == count - 1;
      RanksKeepOrder(ids, ids[i], ids[i]);
    }
  }
}
