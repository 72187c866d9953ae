/**
 The incremental expiry sweep of xshared.c over all shards of a dictionary, with its saved cursor,
 and the bound on how long an expired entry can stay.
 */
module SharedDict {
  import opened Common
  import opened SharedSpec
  import opened SharedShard

  // ---------- buckets of all shards in one row ----------

  ghost function Offset(ts: seq<Table>, s: nat): nat
    requires s <= |ts|
  {
    if s == 0 then 0 else Offset(ts, s - 1) + |ts[s-1].chains|
  }

  lemma {:induction false} OffsetMono(ts: seq<Table>, s: nat, s': nat)
    requires s <= s' <= |ts|
    ensures Offset(ts, s) <= Offset(ts, s')
    ensures s < s' ==> Offset(ts, s) + |ts[s].chains| <= Offset(ts, s')
    decreases s'
  {
    if s < s' {
      OffsetMono(ts, s, s' - 1);
    }
  }

  lemma {:induction false} OffsetSame(ts: seq<Table>, ts': seq<Table>, s: nat)
    requires |ts'| == |ts| && s <= |ts| && forall i :: 0 <= i < |ts| ==> |ts'[i].chains| == |ts[i].chains|
    ensures Offset(ts', s) == Offset(ts, s)
    decreases s
  {
    if s > 0 {
      OffsetSame(ts, ts', s - 1);
    }
  }

  // Bucket number p of the row holds nothing that was dead at `now`.
  ghost predicate CleanAt(ts: seq<Table>, p: int, now: int) {
    forall s, b :: 0 <= s < |ts| && 0 <= b < |ts[s].chains| && Offset(ts, s) + b == p ==> CleanChain(ts[s], b, now)
  }

  lemma CleanAtBucket(ts: seq<Table>, s: nat, b: nat, now: int)
    requires s < |ts| && b < |ts[s].chains| && CleanChain(ts[s], b, now)
    ensures CleanAt(ts, Offset(ts, s) + b, now)
  {
    forall s', b' | 0 <= s' < |ts| && 0 <= b' < |ts[s'].chains| && Offset(ts, s') + b' == Offset(ts, s) + b
      ensures CleanChain(ts[s'], b', now)
    {
      if s' < s {
        OffsetMono(ts, s', s);
      } else if s < s' {
        OffsetMono(ts, s, s');
      }
    }
  }

  // Positions wrap round once.
  function Wrap(n: nat, p: int): int {
    if p >= n then p - n else if p < 0 then p + n else p
  }

  // From position g on, d buckets of the row (which may run over its end) are clean.
  ghost predicate CleanRun(ts: seq<Table>, n: nat, g: nat, d: nat, now: int) {
    forall x :: g <= x < g + d ==> CleanAt(ts, Wrap(n, x), now)
  }

  // What one call of the sweep does to the shards as values.
  ghost predicate AllSwept(ts: seq<Table>, ts': seq<Table>, now: int) {
    |ts'| == |ts| && forall i :: 0 <= i < |ts| ==> SweptFrom(ts[i], ts'[i], now)
  }

  lemma SweptKeepsClean(ts: seq<Table>, ts': seq<Table>, now: int, p: int)
    requires AllSwept(ts, ts', now) && CleanAt(ts, p, now)
    ensures CleanAt(ts', p, now)
  {
    AllSweptSizes(ts, ts', now);
    forall s, b | 0 <= s < |ts'| && 0 <= b < |ts'[s].chains| && Offset(ts', s) + b == p
      ensures CleanChain(ts'[s], b, now)
    {
      OffsetSame(ts, ts', s);
      SweptClean(ts[s], ts'[s], b, now);
    }
  }

  lemma AllSweptSizes(ts: seq<Table>, ts': seq<Table>, now: int)
    requires AllSwept(ts, ts', now)
    ensures |ts'| == |ts| && forall i :: 0 <= i < |ts| ==> |ts'[i].chains| == |ts[i].chains|
  {
    forall i | 0 <= i < |ts|
      ensures |ts'[i].chains| == |ts[i].chains|
    {
      SweptSizes(ts[i], ts'[i], now);
    }
  }

  // Sweeping buckets lo .. hi - 1 of shard s extends a clean run that had reached bucket lo.
  lemma ExtendRun(ts: seq<Table>, ts': seq<Table>, n: nat, g: nat, d: nat, s: nat, lo: nat, hi: nat, now: int, over: bool)
    requires AllSwept(ts, ts', now) && CleanRun(ts, n, g, d, now) && s < |ts| && n == Offset(ts, |ts|)
    requires lo <= hi <= |ts[s].chains| && CleanRange(ts'[s], lo, hi, now)
    requires g + d == Offset(ts, s) + lo + (if over then n else 0)
    ensures CleanRun(ts', n, g, d + (hi - lo), now)
  {
    AllSweptSizes(ts, ts', now);
    OffsetSame(ts, ts', s);
    OffsetMono(ts, s, |ts|);
    forall x | g <= x < g + d + (hi - lo)
      ensures CleanAt(ts', Wrap(n, x), now)
    {
      if x < g + d {
        SweptKeepsClean(ts, ts', now, Wrap(n, x));
      } else {
        CleanAtBucket(ts', s, lo + (x - (g + d)), now);
      }
    }
  }

  lemma AllSweptTrans(ts: seq<Table>, ms: seq<Table>, ts': seq<Table>, now: int)
    requires AllSwept(ts, ms, now) && AllSwept(ms, ts', now)
    ensures AllSwept(ts, ts', now)
  {
    forall i | 0 <= i < |ts|
      ensures SweptFrom(ts[i], ts'[i], now)
    {
      SweptTrans(ts[i], ms[i], ts'[i], now);
    }
  }

  lemma NoneSeen(t: Table, b: nat, now: int)
    requires b < |t.chains|
    ensures SeenAlive(t, b, 0, now)
  {
  }

  lemma EmptyRun(ts: seq<Table>, n: nat, g: nat, now: int)
    ensures CleanRun(ts, n, g, 0, now)
  {
  }

  // A sweep under way: d buckets done since position g, standing at bucket bi of shard si, possibly
  // over the end of the row, with `reaped` entries gone.
  datatype Progress = Progress(g: nat, d: nat, si: nat, bi: nat, over: bool, reaped: nat)

  // A bucket number past the end counts as 0.
  function Lo(t: Table, from: nat): nat {
    if from >= |t.buckets| then 0 else from
  }

  ghost predicate Passed(ts0: seq<Table>, ts: seq<Table>, n: nat, p: Progress, now: int) {
    && AllSwept(ts0, ts, now) && |ts0| == |ts| && n == Offset(ts, |ts|) && CleanRun(ts, n, p.g, p.d, now)
    && p.si < |ts| && p.bi <= |ts[p.si].chains|
    && p.g + p.d == Offset(ts, p.si) + p.bi + (if p.over then n else 0)
    && Entries(ts0, |ts|) == Entries(ts, |ts|) + p.reaped
  }

  // About to sweep a shard from bucket number `from` on.
  ghost predicate Entering(ts0: seq<Table>, ts: seq<Table>, n: nat, p: Progress, from: nat, now: int) {
    Passed(ts0, ts, n, p, now) && p.bi < |ts[p.si].chains| && p.bi == Lo(ts[p.si], from)
  }

  lemma EnteringIn(ts0: seq<Table>, ts: seq<Table>, n: nat, p: Progress, from: nat, now: int)
    requires Entering(ts0, ts, n, p, from, now)
    ensures Passed(ts0, ts, n, p, now) && p.si < |ts| && p.bi < |ts[p.si].chains| && p.bi == Lo(ts[p.si], from)
  {
  }

  lemma GoOn(ts0: seq<Table>, ts: seq<Table>, ts': seq<Table>, n: nat, g: nat, d: nat, si: nat, lo: nat, hi: nat,
             over: bool, now: int)
    requires AllSwept(ts0, ts, now) && n == Offset(ts, |ts|) && CleanRun(ts, n, g, d, now) && AllSwept(ts, ts', now)
    requires si < |ts| && g + d == Offset(ts, si) + lo + (if over then n else 0)
    requires lo <= hi <= |ts[si].chains| && |ts'| == |ts| && CleanRange(ts'[si], lo, hi, now)
    ensures AllSwept(ts0, ts', now) && n == Offset(ts', |ts'|) && CleanRun(ts', n, g, d + (hi - lo), now)
    ensures Offset(ts', si) == Offset(ts, si) && |ts'[si].chains| == |ts[si].chains|
  {
    ExtendRun(ts, ts', n, g, d, si, lo, hi, now, over);
    AllSweptTrans(ts0, ts, ts', now);
    AllSweptSizes(ts, ts', now);
    OffsetSame(ts, ts', |ts|);
    OffsetSame(ts, ts', si);
  }

  // On to the next shard, possibly over the end of the row.
  function Onward(p: Progress, m: nat): Progress {
    p.(si := if p.si + 1 == m then 0 else p.si + 1, bi := 0, over := p.over || p.si + 1 == m)
  }

  lemma GoNext(ts0: seq<Table>, ts: seq<Table>, n: nat, p: Progress, now: int)
    requires Passed(ts0, ts, n, p, now) && p.si < |ts| && p.bi == |ts[p.si].chains|
    requires p.over ==> p.si + 1 < |ts|
    requires forall i :: 0 <= i < |ts| ==> |ts[i].chains| == |ts[i].buckets| > 0
    ensures Entering(ts0, ts, n, Onward(p, |ts|), 0, now)
  {
    hide AllSwept, CleanRun, Offset, Entries;
    OffsetStep(ts, p.si);
  }

  lemma OffsetStep(ts: seq<Table>, s: nat)
    requires s < |ts|
    ensures Offset(ts, s + 1) == Offset(ts, s) + |ts[s].chains|
    ensures Offset(ts, 0) == 0
  {
  }

  // Where a sweep that began at shard s0 may stop, and what its length then is.
  lemma Stop(ts0: seq<Table>, ts: seq<Table>, n: nat, g: nat, d: nat, s0: nat, si: nat, hi: nat, over: bool, now: int)
    requires AllSwept(ts0, ts, now) && |ts0| == |ts| && n == Offset(ts, |ts|) && s0 < |ts| && si < |ts|
    requires g + d == Offset(ts, si) + hi + (if over then n else 0)
    requires g >= Offset(ts, s0) && hi < |ts[si].chains|
    requires over ==> si < s0 || (si == s0 && hi == 0)
    ensures d <= n && Wrap(n, g + d) == Offset(ts, si) + hi
    ensures Offset(ts0, |ts0|) == n
  {
    hide AllSwept;
    SameOffset(ts0, ts, |ts|, now);
    OffsetMono(ts, si, |ts|);
    if over {
      OffsetMono(ts, si, s0);
    }
  }

  lemma Stopped(ts0: seq<Table>, ts: seq<Table>, n: nat, p: Progress, s0: nat, now: int)
    requires Passed(ts0, ts, n, p, now) && |ts0| == |ts| && n == Offset(ts0, |ts0|)
    requires s0 < |ts| && p.g >= Offset(ts0, s0) && p.si < |ts| && p.bi < |ts[p.si].chains|
    requires p.over ==> p.si < s0 || (p.si == s0 && p.bi == 0)
    ensures AllSwept(ts0, ts, now) && p.d <= n && CleanRun(ts, n, p.g, p.d, now)
    ensures Wrap(n, p.g + p.d) == Offset(ts, p.si) + p.bi == Offset(ts0, p.si) + p.bi
    ensures p.g + p.d == Offset(ts0, p.si) + p.bi + (if p.over then n else 0)
    ensures Entries(ts0, |ts0|) == Entries(ts, |ts|) + p.reaped
  {
    hide AllSwept, CleanRun, Offset, Entries;
    SameOffset(ts0, ts, s0, now);
    SameOffset(ts0, ts, p.si, now);
    Stop(ts0, ts, n, p.g, p.d, s0, p.si, p.bi, p.over, now);
  }

  lemma SameOffset(ts: seq<Table>, ts': seq<Table>, s: nat, now: int)
    requires AllSwept(ts, ts', now) && s <= |ts|
    ensures |ts'| == |ts| && Offset(ts', s) == Offset(ts, s)
  {
    AllSweptSizes(ts, ts', now);
    OffsetSame(ts, ts', s);
  }

  // ---------- many calls ----------

  // No bucket alone uses up the scan budget; 0 stands for no budget.
  ghost predicate Short(ts: seq<Table>, limit: nat) {
    limit == 0 || forall s, c :: 0 <= s < |ts| && 0 <= c < |ts[s].chains| ==> |ts[s].chains[c]| < limit
  }

  // What every call but an insertion does to the shards as values.
  ghost predicate AllEased(ts: seq<Table>, ts': seq<Table>, start: int) {
    |ts'| == |ts| && forall i :: 0 <= i < |ts| ==> Eased(ts[i], ts'[i], start)
  }

  lemma SweptEases(ts: seq<Table>, ts': seq<Table>, now: int, start: int)
    requires AllSwept(ts, ts', now)
    ensures AllEased(ts, ts', start)
  {
    forall i | 0 <= i < |ts|
      ensures Eased(ts[i], ts'[i], start)
    {
      assert SweptFrom(ts[i], ts'[i], now);
      ShrunkEases(ts[i], ts'[i], start);
    }
  }

  lemma AllEasedSizes(ts: seq<Table>, ts': seq<Table>, start: int)
    requires AllEased(ts, ts', start)
    ensures |ts'| == |ts|
    ensures forall i :: 0 <= i < |ts| ==> |ts'[i].chains| == |ts[i].chains| && |ts'[i].buckets| == |ts[i].buckets|
    ensures forall s :: 0 <= s <= |ts| ==> Offset(ts', s) == Offset(ts, s)
  {
    assert forall i :: 0 <= i < |ts| ==> Eased(ts[i], ts'[i], start);
    forall s | 0 <= s <= |ts|
      ensures Offset(ts', s) == Offset(ts, s)
    {
      OffsetSame(ts, ts', s);
    }
  }

  lemma EaseEarlier(ts: seq<Table>, ts': seq<Table>, now: int, start: int)
    requires AllEased(ts, ts', now) && start <= now
    ensures AllEased(ts, ts', start)
  {
    forall i | 0 <= i < |ts|
      ensures Eased(ts[i], ts'[i], start)
    {
      EasedEarlier(ts[i], ts'[i], now, start);
    }
  }

  lemma SamePosition(ts: seq<Table>, ts': seq<Table>, start: int, s: nat)
    requires AllEased(ts, ts', start) && s < |ts|
    ensures |ts'| == |ts| && Offset(ts', s) == Offset(ts, s) && |ts'[s].buckets| == |ts[s].buckets|
  {
    AllEasedSizes(ts, ts', start);
  }

  /** Chains never grow but by an insertion. */
  lemma StaysShort(ts: seq<Table>, ts': seq<Table>, start: int, limit: nat)
    requires AllEased(ts, ts', start) && Short(ts, limit)
    ensures Short(ts', limit)
  {
    if limit > 0 {
      forall s, c | 0 <= s < |ts'| && 0 <= c < |ts'[s].chains|
        ensures |ts'[s].chains[c]| < limit
      {
        assert Eased(ts[s], ts'[s], start);
        assert EasedChain(ts[s], ts'[s], c, start);
      }
    }
  }

  lemma StaysClean(ts: seq<Table>, ts': seq<Table>, p: int, start: int)
    requires AllEased(ts, ts', start) && CleanAt(ts, p, start)
    ensures CleanAt(ts', p, start)
  {
    AllEasedSizes(ts, ts', start);
    forall s, b | 0 <= s < |ts'| && 0 <= b < |ts'[s].chains| && Offset(ts', s) + b == p
      ensures CleanChain(ts'[s], b, start)
    {
      assert Eased(ts[s], ts'[s], start);
      EasedClean(ts[s], ts'[s], b, start);
    }
  }

  // The c buckets behind position g are clean.
  ghost predicate Behind(ts: seq<Table>, n: nat, g: int, c: nat, start: int) {
    forall x :: 1 <= x <= c ==> CleanBack(ts, n, g, x, start)
  }

  ghost predicate CleanBack(ts: seq<Table>, n: nat, g: int, x: int, start: int) {
    CleanAt(ts, Wrap(n, g - x), start)
  }

  lemma BehindNone(ts: seq<Table>, n: nat, g: int, start: int)
    ensures Behind(ts, n, g, 0, start)
  {
  }

  lemma CleanEarlier(ts: seq<Table>, p: int, now: int, start: int)
    requires CleanAt(ts, p, now) && start <= now
    ensures CleanAt(ts, p, start)
  {
    forall s, b | 0 <= s < |ts| && 0 <= b < |ts[s].chains| && Offset(ts, s) + b == p
      ensures CleanChain(ts[s], b, start)
    {
      assert CleanChain(ts[s], b, now);
    }
  }

  /** A call that inserts nothing leaves the buckets behind the cursor clean. */
  lemma BehindKept(ts: seq<Table>, ts': seq<Table>, n: nat, g: int, c: nat, start: int)
    requires AllEased(ts, ts', start) && Behind(ts, n, g, c, start)
    ensures Behind(ts', n, g, c, start)
  {
    hide CleanAt, AllEased;
    forall x | 1 <= x <= c
      ensures CleanBack(ts', n, g, x, start)
    {
      assert CleanBack(ts, n, g, x, start);
      StaysClean(ts, ts', Wrap(n, g - x), start);
    }
  }

  lemma BackStep(ts: seq<Table>, ts': seq<Table>, n: nat, g: nat, d: nat, c: nat, now: int, start: int, x: nat)
    requires AllSwept(ts, ts', now) && start <= now && g < n && d <= n && CleanRun(ts', n, g, d, now)
    requires c <= n && Behind(ts, n, g, c, start) && 1 <= x <= c + d && x <= n
    ensures CleanBack(ts', n, Wrap(n, g + d), x, start)
  {
    hide CleanAt, AllSwept, AllEased;
    if x <= d {
      CleanEarlier(ts', Wrap(n, g + d - x), now, start);
    } else {
      assert CleanBack(ts, n, g, x - d, start);
      SweptEases(ts, ts', now, start);
      StaysClean(ts, ts', Wrap(n, g - (x - d)), start);
    }
  }

  // One more clean bucket behind the cursor, while there is one left.
  function Further(n: nat, c: nat): nat {
    if c < n then c + 1 else c
  }

  /** A sweep that passes a bucket leaves one more of them clean behind the cursor. */
  lemma BehindStep(ts: seq<Table>, ts': seq<Table>, n: nat, g: nat, d: nat, c: nat, now: int, start: int)
    requires AllSwept(ts, ts', now) && start <= now && g < n && 1 <= d <= n && CleanRun(ts', n, g, d, now)
    requires c <= n && Behind(ts, n, g, c, start)
    ensures Behind(ts', n, Wrap(n, g + d), Further(n, c), start)
  {
    hide CleanBack, AllSwept, CleanRun;
    var g', m := Wrap(n, g + d), Further(n, c);
    forall x | 1 <= x <= m
      ensures CleanBack(ts', n, g', x, start)
    {
      BackStep(ts, ts', n, g, d, c, now, start, x);
    }
  }

  /** Once it has gone round, every bucket is clean. */
  lemma AllBehind(ts: seq<Table>, g: nat, start: int)
    requires g < Offset(ts, |ts|) && Behind(ts, Offset(ts, |ts|), g, Offset(ts, |ts|), start)
    ensures forall s, b :: 0 <= s < |ts| && 0 <= b < |ts[s].chains| ==> CleanChain(ts[s], b, start)
  {
    hide CleanChain, Offset;
    var n := Offset(ts, |ts|);
    forall s, b | 0 <= s < |ts| && 0 <= b < |ts[s].chains|
      ensures CleanChain(ts[s], b, start)
    {
      OffsetMono(ts, s, |ts|);
      var p := Offset(ts, s) + b;
      assert CleanBack(ts, n, g, if p < g then g - p else g + n - p, start);
      assert CleanAt(ts, p, start);
    }
  }

  // How many entries there are.
  ghost function Entries(ts: seq<Table>, s: nat): nat
    requires s <= |ts|
  {
    if s == 0 then 0 else Entries(ts, s - 1) + |ts[s-1].order|
  }

  lemma {:induction false} EntriesOne(ts: seq<Table>, ts': seq<Table>, i: nat, s: nat)
    requires |ts'| == |ts| && i < |ts| && s <= |ts| && forall j :: 0 <= j < |ts| && j != i ==> ts'[j] == ts[j]
    ensures Entries(ts', s) - Entries(ts, s) == if i < s then |ts'[i].order| - |ts[i].order| else 0
    decreases s
  {
    if s > 0 {
      EntriesOne(ts, ts', i, s - 1);
    }
  }

  // ---------- the dictionary ----------

  // A call of the sweep, or a call on a key that inserts nothing.
  datatype Request =
    | Sweep(now: int)
    | Get(key: Bytes, now: int)
    | Ttl(key: Bytes, now: int)
    | Delete(key: Bytes, now: int)
    | Expire(key: Bytes, ttl: int, now: int)

  function Sweeps(rs: seq<Request>): nat {
    if rs == [] then 0 else Sweeps(rs[..|rs|-1]) + (if rs[|rs|-1].Sweep? then 1 else 0)
  }

  lemma {:induction false} SweepsCount(rs: seq<Request>)
    ensures Sweeps(rs) == |set i | 0 <= i < |rs| && rs[i].Sweep?|
    decreases |rs|
  {
    var all := set i | 0 <= i < |rs| && rs[i].Sweep?;
    if rs == [] {
      assert all == {};
    } else {
      var init, last := rs[..|rs|-1], |rs| - 1;
      var some := set i | 0 <= i < |init| && init[i].Sweep?;
      SweepsCount(init);
      assert all == if rs[last].Sweep? then some + {last} else some;
    }
  }

  class Dict {
    const hash: Bytes -> nat
    const shards: seq<Shard>
    var sweepShard: nat
    var sweepBucket: nat

    ghost predicate Valid()
      reads this, shards
    {
      && sweepShard < |shards|
      && (forall i, j :: 0 <= i < j < |shards| ==> shards[i] != shards[j])
      && forall i :: 0 <= i < |shards| ==> shards[i].Valid() && shards[i].hash == hash
    }

    // create_locked, with the number of shards rounded already
    constructor (hash: Bytes -> nat, budget: nat, n: nat)
      requires n > 0
      ensures Valid() && this.hash == hash && |shards| == n && Position() == 0
      ensures forall i :: 0 <= i < n ==>
                && fresh(shards[i]) && shards[i].Contents() == []
                && shards[i].budget == if budget / n < HEADER then HEADER else budget / n
    {
      hide TableOk, Dll, Items;
      var made := NewShards(hash, if budget / n < HEADER then HEADER else budget / n, n);
      this.hash, shards, sweepShard, sweepBucket := hash, made, 0, 0;
    }

    static method NewShards(hash: Bytes -> nat, share: nat, n: nat) returns (made: seq<Shard>)
      ensures |made| == n && forall i, j :: 0 <= i < j < n ==> made[i] != made[j]
      ensures forall i :: 0 <= i < n ==>
                && fresh(made[i]) && made[i].Valid() && made[i].Contents() == []
                && made[i].hash == hash && made[i].budget == share
    {
      hide TableOk, Dll, Items;
      made := [];
      while |made| < n
        invariant |made| <= n && forall i, j :: 0 <= i < j < |made| ==> made[i] != made[j]
        invariant forall i :: 0 <= i < |made| ==>
                    && fresh(made[i]) && made[i].Valid() && made[i].Contents() == []
                    && made[i].hash == hash && made[i].budget == share
      {
        var s := new Shard(hash, share);
        made := made + [s];
      }
    }

    // shard_for; the number of shards is a power of two, so that the remainder is the mask.
    function ShardFor(key: Bytes): (i: nat)
      requires |shards| > 0
      ensures i < |shards|
    {
      hash(key) / 0x1_0000_0000 % |shards|
    }

    // The upper half of the 64-bit hash chooses the shard; the lower half is left for the bucket.
    lemma ShardByUpperHalf(key: Bytes, upper: nat, lower: nat)
      requires |shards| > 0 && lower < 0x1_0000_0000 && hash(key) == upper * 0x1_0000_0000 + lower
      ensures ShardFor(key) == upper % |shards|
    {
      assert hash(key) / 0x1_0000_0000 == upper;
    }

    ghost function Tables(): (ts: seq<Table>)
      reads shards
      ensures |ts| == |shards|
      ensures forall i :: 0 <= i < |ts| ==> ts[i] == shards[i].Look()
    {
      seq(|shards|, i requires 0 <= i < |shards| reads shards => shards[i].Look())
    }

    // The position of the cursor in the row; a bucket number past the end counts as 0.
    ghost function Position(): nat
      reads this, shards
      requires Valid()
    {
      var ts := Tables();
      Offset(ts, sweepShard) + (if sweepBucket >= |ts[sweepShard].buckets| then 0 else sweepBucket)
    }

    // Entries in the bucket under the cursor.
    ghost function CursorChain(): nat
      reads this, shards
      requires Valid()
    {
      var t := Tables()[sweepShard];
      var b := if sweepBucket >= |t.buckets| then 0 else sweepBucket;
      if b < |t.chains| then |t.chains[b]| else 0
    }

    lemma SizesPositive()
      requires Valid()
      ensures forall i :: 0 <= i < |shards| ==> |Tables()[i].chains| == |Tables()[i].buckets| > 0
    {
      hide TableOk, Dll;
      forall i | 0 <= i < |shards|
        ensures |Tables()[i].chains| == |Tables()[i].buckets| > 0
      {
        BucketCount(Tables()[i], shards[i].hash, shards[i].budget);
      }
    }

    lemma NothingSwept(now: int)
      requires Valid()
      ensures AllSwept(Tables(), Tables(), now)
    {
      hide TableOk, Dll, SweptFrom;
      forall i | 0 <= i < |shards|
        ensures SweptFrom(Tables()[i], Tables()[i], now)
      {
        SweptRefl(Tables()[i], shards[i].hash, shards[i].budget, now);
      }
    }

    lemma Start(now: int) returns (p: Progress)
      requires Valid()
      ensures p == Progress(Position(), 0, sweepShard, Lo(Tables()[sweepShard], sweepBucket), false, 0)
      ensures Entering(Tables(), Tables(), Offset(Tables(), |shards|), p, sweepBucket, now)
      ensures p.bi < |Tables()[sweepShard].chains| && CursorChain() == |Tables()[sweepShard].chains[p.bi]|
    {
      hide TableOk, Dll, SweptFrom, CleanRun, AllSwept;
      SizesPositive();
      NothingSwept(now);
      p := Progress(Position(), 0, sweepShard, Lo(Tables()[sweepShard], sweepBucket), false, 0);
      EmptyRun(Tables(), Offset(Tables(), |shards|), Position(), now);
    }

    // One shard's part of the sweep.
    method SweepOne(si: nat, from: nat, scanned0: nat, limit: nat, now: int)
      returns (bi: nat, scanned: nat, reaped: nat, paused: bool, ghost kept: nat)
      requires Valid() && si < |shards| && (limit == 0 || scanned0 < limit)
      modifies shards
      ensures Valid() && AllSwept(old(Tables()), Tables(), now)
      ensures var t, t' := old(Tables())[si], Tables()[si];
              var lo := if from >= |t.buckets| then 0 else from;
              && |t'.buckets| == |t.buckets| == |t.chains| == |t'.chains| > 0
              && lo <= bi <= |t.buckets| && CleanRange(t', lo, bi, now)
              && (!paused ==> bi == |t.buckets|)
              && (paused ==> bi < |t.buckets| && limit > 0)
              && (paused && lo < |t.chains| && scanned0 + |t.chains[lo]| < limit ==> bi > lo)
              && (paused ==> SeenAlive(t', bi, kept, now))
      ensures Entries(old(Tables()), |shards|) == Entries(Tables(), |shards|) + reaped
      ensures (if paused then scanned == limit else limit == 0 || scanned < limit) && scanned >= scanned0 + reaped
    {
      hide SweptFrom, TableOk, Dll, CleanRange, CleanChain, SeenAlive;
      ghost var ts := Tables();
      NothingSwept(now);
      BucketCount(ts[si], shards[si].hash, shards[si].budget);
      bi, scanned, reaped, paused, kept := shards[si].SweepShard(from, scanned0, limit, now);
      SweptSizes(ts[si], Tables()[si], now);
      assert forall i :: 0 <= i < |shards| && i != si ==> Tables()[i] == ts[i];
      EntriesOne(ts, Tables(), si, |shards|);
    }

    // The same, as part of a sweep.
    method SweepOn(from: nat, scanned0: nat, limit: nat, now: int, ghost ts0: seq<Table>, ghost n: nat,
                   si: nat, ghost p: Progress)
      returns (bi: nat, scanned: nat, reaped: nat, paused: bool, ghost p': Progress, ghost kept: nat)
      requires Valid() && Entering(ts0, Tables(), n, p, from, now) && si == p.si && (limit == 0 || scanned0 < limit)
      modifies shards
      ensures Valid() && Passed(ts0, Tables(), n, p', now)
      ensures p'.(d := p.d, bi := p.bi, reaped := p.reaped) == p && p'.bi == bi && p'.reaped == p.reaped + reaped && p'.d >= p.d
      ensures !paused ==> p'.d > p.d && bi == |Tables()[si].chains|
      ensures paused ==> bi < |Tables()[si].chains| && limit > 0 && SeenAlive(Tables()[si], bi, kept, now)
      ensures (if paused then scanned == limit else limit == 0 || scanned < limit) && scanned >= scanned0 + reaped
      ensures p.bi < |old(Tables())[si].chains|
      ensures paused && scanned0 + |old(Tables())[si].chains[p.bi]| < limit ==> p'.d > p.d
    {
      hide SweptFrom, TableOk, Dll, CleanRange, CleanChain, CleanAt, CleanRun, AllSwept, Offset, SeenAlive, Entries;
      ghost var ts := Tables();
      bi, scanned, reaped, paused, kept := SweepOne(si, from, scanned0, limit, now);
      GoOn(ts0, ts, Tables(), n, p.g, p.d, si, p.bi, bi, p.over, now);
      p' := p.(d := p.d + (bi - p.bi), bi := bi, reaped := p.reaped + reaped);
    }

    // The loop of sweep_expired over the shards, up to the point where the cursor is saved.
    method SweepLoop(limit: nat, now: int)
      returns (reaped: nat, si: nat, bi: nat, ghost p: Progress, ghost kept: nat, ghost scans: nat)
      requires Valid()
      modifies shards
      ensures Valid() && Passed(old(Tables()), Tables(), Offset(old(Tables()), |shards|), p, now)
      ensures p.g == old(Position()) && p.si == si && p.bi == bi && p.reaped == reaped
      ensures si < |shards| && bi < |Tables()[si].chains| && SeenAlive(Tables()[si], bi, kept, now)
      ensures p.over ==> si < sweepShard || (si == sweepShard && bi == 0)
      ensures old(CursorChain()) < limit || limit == 0 ==> p.d > 0
      ensures reaped <= scans && (limit > 0 ==> scans <= limit)
      ensures (limit > 0 && scans == limit) || (si == sweepShard && bi == 0 && p.over)
    {
      hide SweptFrom, TableOk, Dll, CleanChain, CleanAt, CleanRun, AllSwept, Entering, Passed, Offset, SeenAlive, Entries;
      ghost var ts0, n, g, c := Tables(), Offset(Tables(), |shards|), Position(), CursorChain();
      p := Start(now);
      hide Position, CursorChain, Tables;
      var scanned: nat := 0;
      scans := 0;
      reaped, si, bi, kept := 0, sweepShard, sweepBucket, 0;
      for visited := 0 to |shards|
        invariant Valid() && Entering(ts0, Tables(), n, p, bi, now)
        invariant si < |shards| && p.g == g && p.si == si && p.reaped == reaped
        invariant visited == 0 ==>
                    scanned == 0 && Tables() == ts0 && p.bi < |ts0[si].chains| && c == |ts0[si].chains[p.bi]|
        invariant visited > 0 ==> bi == 0 && p.d > 0
        invariant si + (if p.over then |shards| else 0) == sweepShard + visited
        invariant reaped <= scanned == scans && (limit == 0 || scanned < limit)
      {
        var r, paused;
        ghost var p';
        bi, scanned, r, paused, p', kept := SweepOn(bi, scanned, limit, now, ts0, n, si, p);
        reaped := reaped + r;
        p, scans := p', scanned;
        if paused {
          return;
        }
        SizesPositive();
        GoNext(ts0, Tables(), n, p, now);
        p := Onward(p, |shards|);
        si := if si + 1 == |shards| then 0 else si + 1;
        bi := 0;
      }
      EnteringIn(ts0, Tables(), n, p, bi, now);
      kept := 0;
      NoneSeen(Tables()[si], bi, now);
    }

    /** sweep_expired: only expired entries go, in every shard, and are counted; the cursor moves d
        buckets on, all d of them clean, and the first `kept` entries of the bucket it comes to have
        been found alive; unless the first bucket alone uses up the scan budget, d is positive.  Either
        the budget of scans is used up, to the entry, or the sweep has gone through all shards, from the
        cursor's bucket to the first bucket of that shard; the buckets before the cursor in it are left. */
    method SweepExpired(limit: nat, now: int) returns (reaped: nat, ghost d: nat, ghost kept: nat, ghost scans: nat)
      requires Valid()
      modifies this, shards
      ensures Valid() && AllSwept(old(Tables()), Tables(), now)
      ensures var n := Offset(old(Tables()), |shards|);
              && d <= n && CleanRun(Tables(), n, old(Position()), d, now)
              && Position() == Wrap(n, old(Position()) + d)
      ensures SeenAlive(Tables()[sweepShard], sweepBucket, kept, now)
      ensures old(CursorChain()) < limit || limit == 0 ==> d > 0
      ensures Entries(old(Tables()), |shards|) == Entries(Tables(), |shards|) + reaped
      ensures reaped <= scans && (limit > 0 ==> scans <= limit)
      ensures var n := Offset(old(Tables()), |shards|);
              || (limit > 0 && scans == limit)
              || (sweepShard == old(sweepShard) && sweepBucket == 0
                  && d + old(Position()) == Offset(old(Tables()), sweepShard) + n)
    {
      hide SweptFrom, TableOk, Dll, CleanChain, CleanAt, CleanRun, AllSwept, Offset, SeenAlive, Entries, Passed, Wrap;
      ghost var ts0, s0 := Tables(), sweepShard;
      var si, bi;
      ghost var p;
      reaped, si, bi, p, kept, scans := SweepLoop(limit, now);
      d := p.d;
      SizesPositive();
      Stopped(ts0, Tables(), Offset(ts0, |shards|), p, s0, now);
      sweepShard, sweepBucket := si, bi;
    }

    lemma InRow()
      requires Valid()
      ensures Position() < Offset(Tables(), |shards|)
    {
      hide TableOk, Dll;
      SizesPositive();
      OffsetMono(Tables(), sweepShard, |shards|);
    }

    lemma NoBucketTooLong(limit: nat)
      requires Valid() && Short(Tables(), limit)
      ensures CursorChain() < limit || limit == 0
    {
      hide TableOk, Dll;
      SizesPositive();
    }

    // What a call on a key does to the items of its shard.
    ghost static predicate Served(items: seq<Item>, r: Request, items': seq<Item>) {
      match r
      case Sweep(_) => false
      case Get(key, now) => items' == SharedSpec.Get(items, key, now).1
      case Ttl(key, now) => items' == SharedSpec.Lookup(items, key, now).0
      case Delete(key, now) => items' == SharedSpec.Delete(items, key, now).1
      case Expire(key, ttl, now) => items' == SharedSpec.Expire(items, key, ttl, now).1
    }

    // A call on one key, in its shard.
    static method ServeIn(s: Shard, r: Request)
      requires s.Valid() && !r.Sweep?
      modifies s
      ensures s.Valid() && Eased(old(s.Look()), s.Look(), r.now)
      ensures Served(old(s.Contents()), r, s.Contents())
    {
      hide TableOk, Dll, Eased;
      match r {
        case Get(key, now) => var _ := s.Get(key, now);
        case Ttl(key, now) => var _ := s.Ttl(key, now);
        case Delete(key, now) => var _ := s.Delete(key, now);
        case Expire(key, ttl, now) => var _ := s.Expire(key, ttl, now);
      }
    }

    // A call on one key.
    method Serve(r: Request)
      requires Valid() && !r.Sweep?
      modifies shards
      ensures Valid() && AllEased(old(Tables()), Tables(), r.now)
      ensures var i := ShardFor(r.key);
              && Served(old(shards[i].Contents()), r, shards[i].Contents())
              && forall j :: 0 <= j < |shards| && j != i ==> shards[j].Contents() == old(shards[j].Contents())
    {
      hide TableOk, Dll, Eased, SweptFrom;
      ghost var ts := Tables();
      NothingSwept(r.now);
      SweptEases(ts, ts, r.now, r.now);
      var i := ShardFor(r.key);
      ServeIn(shards[i], r);
      assert forall j :: 0 <= j < |shards| && j != i ==> Tables()[j] == ts[j];
    }

    // A request of either kind, seen from the buckets behind the cursor.
    method Next(r: Request, limit: nat, ghost c: nat, ghost start: int)
      requires Valid() && Short(Tables(), limit) && start <= r.now
      requires c <= Offset(Tables(), |shards|) && Behind(Tables(), Offset(Tables(), |shards|), Position(), c, start)
      modifies this, shards
      ensures Valid() && Short(Tables(), limit) && Offset(Tables(), |shards|) == old(Offset(Tables(), |shards|))
      ensures var n := Offset(Tables(), |shards|);
              Behind(Tables(), n, Position(), if r.Sweep? then Further(n, c) else c, start)
    {
      hide TableOk, Dll, SweptFrom, Eased, AllSwept, AllEased, CleanRun, Behind, Short, Offset, SeenAlive, Wrap;
      ghost var ts, n, g := Tables(), Offset(Tables(), |shards|), Position();
      InRow();
      if r.Sweep? {
        NoBucketTooLong(limit);
        var _, d, _, _ := SweepExpired(limit, r.now);
        BehindStep(ts, Tables(), n, g, d, c, r.now, start);
        SweptEases(ts, Tables(), r.now, start);
      } else {
        Serve(r);
        EaseEarlier(ts, Tables(), r.now, start);
        BehindKept(ts, Tables(), n, g, c, start);
        SamePosition(ts, Tables(), start, sweepShard);
      }
      AllEasedSizes(ts, Tables(), start);
      StaysShort(ts, Tables(), start, limit);
    }

    /** Whatever is read, deleted or given a new deadline between the sweeps: if no chain was as long
        as the scan budget to begin with, then after as many sweeps as there are buckets everything
        that was expired at `start` is gone. */
    method Session(rs: seq<Request>, limit: nat, start: int)
      requires Valid() && Short(Tables(), limit)
      requires forall i :: 0 <= i < |rs| ==> start <= rs[i].now
      modifies this, shards
      ensures Valid() && Short(Tables(), limit) && Offset(Tables(), |shards|) == old(Offset(Tables(), |shards|))
      ensures Sweeps(rs) >= Offset(Tables(), |shards|) ==>
                forall s, b :: 0 <= s < |shards| && 0 <= b < |Tables()[s].chains| ==> CleanChain(Tables()[s], b, start)
    {
      hide TableOk, Dll, Behind, Short, Offset, CleanChain;
      ghost var n := Offset(Tables(), |shards|);
      ghost var c: nat := 0;
      BehindNone(Tables(), n, Position(), start);
      for i := 0 to |rs|
        invariant Valid() && Short(Tables(), limit) && Offset(Tables(), |shards|) == n
        invariant c == (if Sweeps(rs[..i]) > n then n else Sweeps(rs[..i]))
        invariant Behind(Tables(), n, Position(), c, start)
      {
        Next(rs[i], limit, c, start);
        assert rs[..i+1][..i] == rs[..i];
        c := if rs[i].Sweep? then Further(n, c) else c;
      }
      assert rs[..|rs|] == rs;
      InRow();
      if Sweeps(rs) >= n {
        AllBehind(Tables(), Position(), start);
      }
    }
  }
}
