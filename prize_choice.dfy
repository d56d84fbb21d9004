/**
 * ActivityPrizesChoice.random_choice_prizer: winners are drawn without replacement,
 * tier by tier, from a copy of the eligible participants, and each winner's row is
 * updated in the store. `random.sample` is a nondeterministic choice of the right size.
 */
module PrizeChoice {
  import opened DataClass
  import opened DataRepository

  /** The winning_content written for a tier: prize_name + " " + prize_content. */
  function PrizeText(p: Price): string
  {
    p.prizeName + " " + p.prizeContent
  }

  function Min(a: int, b: int): int
  {
    if a <= b then a else b
  }

  /** A possible result of random.sample(pool, k): k distinct positions of the pool. */
  predicate IsSample(taken: seq<ActivityUser>, pool: multiset<ActivityUser>, k: int)
  {
    |taken| == k && multiset(taken) <= pool
  }

  /** Everyone drawn by the given tiers, in draw order. */
  function Winners(drawn: seq<seq<ActivityUser>>): seq<ActivityUser>
  {
    if drawn == [] then [] else Winners(drawn[..|drawn| - 1]) + drawn[|drawn| - 1]
  }

  /** The pool left after the given tiers. */
  function PoolAfter(candidates: seq<ActivityUser>, drawn: seq<seq<ActivityUser>>): multiset<ActivityUser>
  {
    multiset(candidates) - multiset(Winners(drawn))
  }

  /** One tier ran on a non-empty pool with a count random.sample accepts, and took
      min(prize_count, pool size) users of that pool. */
  predicate TierDrawn(p: Price, pool: multiset<ActivityUser>, taken: seq<ActivityUser>)
  {
    |pool| > 0 && p.prizeCount >= 0 && IsSample(taken, pool, Min(p.prizeCount, |pool|))
  }

  /** Tier i (0-based) drew `drawn[i]` from the pool the earlier tiers left. */
  predicate TiersDrawn(prizes: seq<Price>, candidates: seq<ActivityUser>, drawn: seq<seq<ActivityUser>>)
  {
    && |drawn| <= |prizes|
    && (drawn != [] ==>
          var n := |drawn| - 1;
          TiersDrawn(prizes, candidates, drawn[..n])
          && TierDrawn(prizes[n], PoolAfter(candidates, drawn[..n]), drawn[n]))
  }

  /** A complete run: the tiers drawn, then a stop because the prizes ran out, the pool
      emptied, or random.sample raised ValueError on a negative count. */
  predicate Allocation(prizes: seq<Price>, candidates: seq<ActivityUser>, drawn: seq<seq<ActivityUser>>, raised: bool)
  {
    && TiersDrawn(prizes, candidates, drawn)
    && var rest := PoolAfter(candidates, drawn);
       if raised then |drawn| < |prizes| && |rest| > 0 && prizes[|drawn|].prizeCount < 0
       else |drawn| == |prizes| || |rest| == 0
  }

  /** One update_prize_user call. */
  datatype Award = Award(rowId: int, content: string, level: int)

  /** The writes of one tier, in draw order. */
  function TierAwards(taken: seq<ActivityUser>, content: string, level: int): seq<Award>
  {
    seq(|taken|, j requires 0 <= j < |taken| => Award(taken[j].id, content, level))
  }

  /** All writes of the given tiers: tier i writes its prize text at level i + 1. */
  function Awards(prizes: seq<Price>, drawn: seq<seq<ActivityUser>>): (ws: seq<Award>)
    requires |drawn| <= |prizes|
    ensures |ws| == |Winners(drawn)|
    ensures forall q :: 0 <= q < |ws| ==> ws[q].rowId == Winners(drawn)[q].id
  {
    if drawn == [] then []
    else
      var n := |drawn| - 1;
      Awards(prizes, drawn[..n]) + TierAwards(drawn[n], PrizeText(prizes[n]), n + 1)
  }

  /** The activity_user table after the writes, in order. */
  function ApplyAwards(rows: seq<ActivityUser>, ws: seq<Award>): (r: seq<ActivityUser>)
    ensures SameParticipants(rows, r)
    ensures forall k :: 0 <= k < |r| ==> r[k].conditionStatus == rows[k].conditionStatus
  {
    if ws == [] then rows
    else
      var w := ws[|ws| - 1];
      WithPrize(ApplyAwards(rows, ws[..|ws| - 1]), w.rowId, w.content, w.level)
  }

  /** The same participant rows in the same order; only the condition and prize columns
      (condition_status, winning_status, winning_content, prize_level) may differ. */
  predicate SameParticipants(before: seq<ActivityUser>, after: seq<ActivityUser>)
  {
    && |after| == |before|
    && forall k :: 0 <= k < |after| ==>
         after[k].(conditionStatus := before[k].conditionStatus, winningStatus := before[k].winningStatus,
                   winningContent := before[k].winningContent, prizeLevel := before[k].prizeLevel) == before[k]
  }

  /** `list.remove(x)`: drops the first occurrence of x. */
  function RemoveFirst(s: seq<ActivityUser>, x: ActivityUser): (r: seq<ActivityUser>)
    requires x in s
    ensures multiset(r) == multiset(s) - multiset{x}
  {
    if s[0] == x then
      assert s == [s[0]] + s[1..];
      s[1..]
    else
      assert s == [s[0]] + s[1..];
      [s[0]] + RemoveFirst(s[1..], x)
  }

  /** Writes applied in two batches equal the writes applied at once. */
  lemma {:induction false} ApplyAwardsAppend(rows: seq<ActivityUser>, a: seq<Award>, b: seq<Award>)
    ensures ApplyAwards(rows, a + b) == ApplyAwards(ApplyAwards(rows, a), b)
  {
    if b == [] {
      assert a + b == a;
    } else {
      var b' := b[..|b| - 1];
      var w := b[|b| - 1];
      assert (a + b)[..|a + b| - 1] == a + b';
      assert (a + b)[|a + b| - 1] == w;
      ApplyAwardsAppend(rows, a, b');
      calc {
        ApplyAwards(rows, a + b);
        WithPrize(ApplyAwards(rows, a + b'), w.rowId, w.content, w.level);
        WithPrize(ApplyAwards(ApplyAwards(rows, a), b'), w.rowId, w.content, w.level);
        ApplyAwards(ApplyAwards(rows, a), b);
      }
    }
  }

  /** A row that no write names is unchanged. */
  lemma {:induction false} UnawardedRowUnchanged(rows: seq<ActivityUser>, ws: seq<Award>, k: int)
    requires 0 <= k < |rows|
    requires forall q :: 0 <= q < |ws| ==> ws[q].rowId != rows[k].id
    ensures ApplyAwards(rows, ws)[k] == rows[k]
  {
    if ws != [] {
      UnawardedRowUnchanged(rows, ws[..|ws| - 1], k);
    }
  }

  /** A row named by exactly one write carries that write's content and level. */
  lemma {:induction false} AwardedRowRecordsWrite(rows: seq<ActivityUser>, ws: seq<Award>, k: int, p: int)
    requires 0 <= k < |rows| && 0 <= p < |ws|
    requires ws[p].rowId == rows[k].id
    requires forall q :: 0 <= q < |ws| && q != p ==> ws[q].rowId != rows[k].id
    ensures ApplyAwards(rows, ws)[k]
            == rows[k].(winningStatus := 1, winningContent := ws[p].content, prizeLevel := ws[p].level)
  {
    var init := ws[..|ws| - 1];
    if p == |ws| - 1 {
      UnawardedRowUnchanged(rows, init, k);
    } else {
      AwardedRowRecordsWrite(rows, init, k, p);
    }
  }

  /** The drawn users, counted with multiplicity, never exceed the candidates. */
  lemma {:induction false} WinnersFromCandidates(prizes: seq<Price>, candidates: seq<ActivityUser>,
                                                 drawn: seq<seq<ActivityUser>>)
    requires TiersDrawn(prizes, candidates, drawn)
    ensures multiset(Winners(drawn)) <= multiset(candidates)
    ensures multiset(Winners(drawn)) + PoolAfter(candidates, drawn) == multiset(candidates)
  {
    if drawn != [] {
      var n := |drawn| - 1;
      WinnersFromCandidates(prizes, candidates, drawn[..n]);
      assert multiset(Winners(drawn)) == multiset(Winners(drawn[..n])) + multiset(drawn[n]);
    }
  }

  /** Sum of prize_count over the tiers. */
  function SumCounts(prizes: seq<Price>): int
  {
    if prizes == [] then 0 else SumCounts(prizes[..|prizes| - 1]) + prizes[|prizes| - 1].prizeCount
  }

  lemma {:induction false} SumCountsStep(prizes: seq<Price>, n: nat)
    requires n < |prizes|
    ensures SumCounts(prizes[..n + 1]) == SumCounts(prizes[..n]) + prizes[n].prizeCount
  {
    assert prizes[..n + 1][..n] == prizes[..n];
  }

  lemma {:induction false} WinnersCountPrefix(prizes: seq<Price>, candidates: seq<ActivityUser>,
                                              drawn: seq<seq<ActivityUser>>)
    requires TiersDrawn(prizes, candidates, drawn)
    ensures |Winners(drawn)| == Min(SumCounts(prizes[..|drawn|]), |candidates|)
  {
    if drawn != [] {
      var n := |drawn| - 1;
      var before := Winners(drawn[..n]);
      WinnersCountPrefix(prizes, candidates, drawn[..n]);
      WinnersFromCandidates(prizes, candidates, drawn[..n]);
      SumCountsStep(prizes, n);
      var pool := PoolAfter(candidates, drawn[..n]);
      assert |multiset(before)| + |pool| == |candidates|;
      assert |Winners(drawn)| == |before| + |drawn[n]|;
      assert |drawn[n]| == Min(prizes[n].prizeCount, |pool|);
    }
  }

  /** With no negative count and no exception, the number of winners is
      min(sum of the prize counts, number of candidates). */
  lemma TotalWinners(prizes: seq<Price>, candidates: seq<ActivityUser>, drawn: seq<seq<ActivityUser>>)
    requires Allocation(prizes, candidates, drawn, false)
    requires forall i :: 0 <= i < |prizes| ==> prizes[i].prizeCount >= 0
    ensures |Winners(drawn)| == Min(SumCounts(prizes), |candidates|)
  {
    WinnersCountPrefix(prizes, candidates, drawn);
    WinnersFromCandidates(prizes, candidates, drawn);
    if |drawn| < |prizes| {
      SumCountsGrows(prizes, |drawn|);
    } else {
      assert prizes[..|drawn|] == prizes;
    }
  }

  lemma {:induction false} SumCountsGrows(prizes: seq<Price>, n: nat)
    requires n <= |prizes|
    requires forall i :: 0 <= i < |prizes| ==> prizes[i].prizeCount >= 0
    ensures SumCounts(prizes[..n]) <= SumCounts(prizes)
  {
    if n < |prizes| {
      var init := prizes[..|prizes| - 1];
      assert init[..n] == prizes[..n];
      SumCountsGrows(init, n);
    } else {
      assert prizes[..n] == prizes;
    }
  }

  /** Every user appears at most once and users with equal ids are the same. */
  ghost predicate IdKeyed(m: multiset<ActivityUser>)
  {
    && (forall x :: m[x] <= 1)
    && (forall x, y :: x in m && y in m && x.id == y.id ==> x == y)
  }

  lemma {:induction false} UniqueIdsAreKeyed(s: seq<ActivityUser>)
    requires UniqueUserIds(s)
    ensures IdKeyed(multiset(s))
  {
    if s != [] {
      var init := s[..|s| - 1];
      UniqueIdsAreKeyed(init);
      assert s == init + [s[|s| - 1]];
      assert s[|s| - 1] !in init;
    }
  }

  lemma TwoPositionsCountTwice(s: seq<ActivityUser>, i: int, j: int)
    requires 0 <= i < j < |s|
    ensures s[i] == s[j] ==> multiset(s)[s[j]] >= 2
  {
    assert s == s[..j] + [s[j]] + s[j + 1..];
    assert s[i] in s[..j];
  }

  lemma KeyedAreUniqueIds(s: seq<ActivityUser>)
    requires IdKeyed(multiset(s))
    ensures UniqueUserIds(s)
  {
    forall i, j | 0 <= i < j < |s| ensures s[i].id != s[j].id {
      TwoPositionsCountTwice(s, i, j);
    }
  }

  /** A winner of tier i has a write with tier i's text and level i + 1. */
  lemma {:induction false} WinnerHasAward(prizes: seq<Price>, drawn: seq<seq<ActivityUser>>, i: int, u: ActivityUser)
    requires |drawn| <= |prizes|
    requires 0 <= i < |drawn| && u in drawn[i]
    ensures exists p :: 0 <= p < |Awards(prizes, drawn)|
              && Awards(prizes, drawn)[p] == Award(u.id, PrizeText(prizes[i]), i + 1)
  {
    var n := |drawn| - 1;
    var before := Awards(prizes, drawn[..n]);
    var tier := TierAwards(drawn[n], PrizeText(prizes[n]), n + 1);
    if i == n {
      var j :| 0 <= j < |drawn[n]| && drawn[n][j] == u;
      assert Awards(prizes, drawn)[|before| + j] == tier[j];
    } else {
      WinnerHasAward(prizes, drawn[..n], i, u);
      var p :| 0 <= p < |before| && before[p] == Award(u.id, PrizeText(prizes[i]), i + 1);
      assert Awards(prizes, drawn)[p] == before[p];
    }
  }

  /** When the candidates have distinct row ids (a primary key), each winner's row ends up
      marked as won, with its tier's prize text and its tier's 1-based level; every other
      row is unchanged. */
  lemma WinnerRowRecordsTier(rows: seq<ActivityUser>, prizes: seq<Price>, candidates: seq<ActivityUser>,
                             drawn: seq<seq<ActivityUser>>, i: int, u: ActivityUser, k: int)
    requires TiersDrawn(prizes, candidates, drawn) && UniqueUserIds(candidates)
    requires 0 <= i < |drawn| && u in drawn[i]
    requires 0 <= k < |rows| && rows[k].id == u.id
    ensures ApplyAwards(rows, Awards(prizes, drawn))[k]
            == rows[k].(winningStatus := 1, winningContent := PrizeText(prizes[i]), prizeLevel := i + 1)
  {
    var ws := Awards(prizes, drawn);
    WinnersUniqueIds(prizes, candidates, drawn);
    WinnerHasAward(prizes, drawn, i, u);
    var p :| 0 <= p < |ws| && ws[p] == Award(u.id, PrizeText(prizes[i]), i + 1);
    AwardedRowRecordsWrite(rows, ws, k, p);
  }

  lemma WinnersUniqueIds(prizes: seq<Price>, candidates: seq<ActivityUser>, drawn: seq<seq<ActivityUser>>)
    requires TiersDrawn(prizes, candidates, drawn) && UniqueUserIds(candidates)
    ensures UniqueUserIds(Winners(drawn))
  {
    WinnersFromCandidates(prizes, candidates, drawn);
    UniqueIdsAreKeyed(candidates);
    KeyedAreUniqueIds(Winners(drawn));
  }

  /** Rows of users who drew nothing are not written. */
  lemma LoserRowUnchanged(rows: seq<ActivityUser>, prizes: seq<Price>, drawn: seq<seq<ActivityUser>>, k: int)
    requires |drawn| <= |prizes|
    requires 0 <= k < |rows|
    requires forall u :: u in Winners(drawn) ==> u.id != rows[k].id
    ensures ApplyAwards(rows, Awards(prizes, drawn))[k] == rows[k]
  {
    var ws := Awards(prizes, drawn);
    forall q | 0 <= q < |ws| ensures ws[q].rowId != rows[k].id {
      assert Winners(drawn)[q] in Winners(drawn);
    }
    UnawardedRowUnchanged(rows, ws, k);
  }

  /** `random.sample(pool, k)`: some k of the pool's positions, in some order. */
  method Sample(pool: seq<ActivityUser>, k: nat) returns (taken: seq<ActivityUser>)
    requires k <= |pool|
    ensures IsSample(taken, multiset(pool), k)
  {
    PrefixIsSample(pool, k);
    taken :| IsSample(taken, multiset(pool), k);
  }

  lemma PrefixIsSample(pool: seq<ActivityUser>, k: nat)
    requires k <= |pool|
    ensures IsSample(pool[..k], multiset(pool), k)
  {
    assert pool == pool[..k] + pool[k..];
  }

  /** `for item in taken: pool.remove(item)`. */
  method RemoveEach(pool: seq<ActivityUser>, taken: seq<ActivityUser>) returns (rest: seq<ActivityUser>)
    requires multiset(taken) <= multiset(pool)
    ensures multiset(rest) == multiset(pool) - multiset(taken)
  {
    rest := pool;
    var j := 0;
    assert taken[j..] == taken;
    while j < |taken|
      invariant 0 <= j <= |taken|
      invariant multiset(rest) == multiset(pool) - multiset(taken[..j])
      invariant multiset(taken[j..]) <= multiset(rest)
    {
      RemoveStep(pool, taken, rest, j);
      rest := RemoveFirst(rest, taken[j]);
      j := j + 1;
    }
    assert taken[..j] == taken;
  }

  /** One round of RemoveEach keeps its invariant. */
  lemma RemoveStep(pool: seq<ActivityUser>, taken: seq<ActivityUser>, rest: seq<ActivityUser>, j: int)
    requires 0 <= j < |taken|
    requires multiset(rest) == multiset(pool) - multiset(taken[..j])
    requires multiset(taken[j..]) <= multiset(rest)
    ensures taken[j] in rest
    ensures multiset(RemoveFirst(rest, taken[j])) == multiset(pool) - multiset(taken[..j + 1])
    ensures multiset(taken[j + 1..]) <= multiset(RemoveFirst(rest, taken[j]))
  {
    assert taken[j..] == [taken[j]] + taken[j + 1..];
    assert taken[..j + 1] == taken[..j] + [taken[j]];
    assert taken[j] in multiset(taken[j..]);
    assert taken[j] in multiset(rest);
  }

  /** The update_prize_user calls of one tier, in draw order. */
  method AwardTier(repo: Repository, taken: seq<ActivityUser>, content: string, level: int)
    requires repo.Valid()
    modifies repo
    ensures repo.Valid()
    ensures repo.users == ApplyAwards(old(repo.users), TierAwards(taken, content, level))
    ensures repo.activities == old(repo.activities) && repo.groups == old(repo.groups)
    ensures repo.userParticipations == old(repo.userParticipations) && repo.nextUserId == old(repo.nextUserId)
  {
    var tier := TierAwards(taken, content, level);
    var j := 0;
    while j < |taken|
      invariant 0 <= j <= |taken|
      invariant repo.Valid()
      invariant repo.users == ApplyAwards(old(repo.users), tier[..j])
      invariant repo.activities == old(repo.activities) && repo.groups == old(repo.groups)
      invariant repo.userParticipations == old(repo.userParticipations) && repo.nextUserId == old(repo.nextUserId)
    {
      assert tier[..j + 1][..j] == tier[..j];
      repo.UpdatePrizeUser(content, taken[j].id, level);
      j := j + 1;
    }
    assert tier[..j] == tier;
  }

  /** random_choice_prizer: the tier loop over a copy of the candidates. Returns whether
      random.sample raised; `drawn` records each tier's sample. */
  method RandomChoicePrizer(repo: Repository, prizes: seq<Price>, candidates: seq<ActivityUser>)
    returns (raised: bool, ghost drawn: seq<seq<ActivityUser>>)
    requires repo.Valid()
    modifies repo
    ensures repo.Valid()
    ensures Allocation(prizes, candidates, drawn, raised)
    ensures repo.users == ApplyAwards(old(repo.users), Awards(prizes, drawn))
    ensures repo.activities == old(repo.activities) && repo.groups == old(repo.groups)
    ensures repo.userParticipations == old(repo.userParticipations) && repo.nextUserId == old(repo.nextUserId)
  {
    var pool := candidates;
    drawn := [];
    raised := false;
    var index := 0;
    while index < |prizes| && pool != []
      invariant 0 <= index <= |prizes| && |drawn| == index
      invariant TiersDrawn(prizes, candidates, drawn)
      invariant multiset(pool) == PoolAfter(candidates, drawn)
      invariant repo.Valid()
      invariant repo.users == ApplyAwards(old(repo.users), Awards(prizes, drawn))
      invariant repo.activities == old(repo.activities) && repo.groups == old(repo.groups)
      invariant repo.userParticipations == old(repo.userParticipations) && repo.nextUserId == old(repo.nextUserId)
    {
      var p := prizes[index];
      var k := Min(p.prizeCount, |pool|);
      if k < 0 {
        raised := true;
        return;
      }
      var taken := Sample(pool, k);
      var rest := RemoveEach(pool, taken);
      AwardTier(repo, taken, PrizeText(p), index + 1);
      ApplyAwardsAppend(old(repo.users), Awards(prizes, drawn), TierAwards(taken, PrizeText(p), index + 1));
      NextTier(prizes, candidates, drawn, pool, taken, rest);
      drawn := drawn + [taken];
      pool := rest;
      index := index + 1;
    }
  }

  /** The bookkeeping of one loop iteration: the drawn tier is appended and the pool shrinks. */
  lemma NextTier(prizes: seq<Price>, candidates: seq<ActivityUser>, drawn: seq<seq<ActivityUser>>,
                 pool: seq<ActivityUser>, taken: seq<ActivityUser>, rest: seq<ActivityUser>)
    requires TiersDrawn(prizes, candidates, drawn) && |drawn| < |prizes|
    requires multiset(pool) == PoolAfter(candidates, drawn) && pool != []
    requires prizes[|drawn|].prizeCount >= 0
    requires IsSample(taken, multiset(pool), Min(prizes[|drawn|].prizeCount, |pool|))
    requires multiset(rest) == multiset(pool) - multiset(taken)
    ensures var d := drawn + [taken];
      && TiersDrawn(prizes, candidates, d)
      && multiset(rest) == PoolAfter(candidates, d)
      && Awards(prizes, d) == Awards(prizes, drawn) + TierAwards(taken, PrizeText(prizes[|drawn|]), |drawn| + 1)
  {
    var d := drawn + [taken];
    assert d[..|drawn|] == drawn;
    assert Winners(d) == Winners(drawn) + taken;
    assert multiset(Winners(d)) == multiset(Winners(drawn)) + multiset(taken);
    assert TierDrawn(prizes[|drawn|], PoolAfter(candidates, drawn), taken);
  }
}
