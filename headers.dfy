/**
 * The header exchange of one aggregation round: the main node posts one
 * receive per other node and then waits until every header has arrived,
 * folding each into its own as it comes in.
 */
module HeaderExchange {
  import opened Shapes
  import opened Layout

  /** The rank whose header the main node receives into slot j. */
  function HeaderSource(j: nat, myRank: nat): (r: nat)
    ensures r != myRank
    ensures r == j || r == j + 1
  {
    if j >= myRank then j + 1 else j
  }

  /** The receive slot that holds the header of rank r. */
  function SlotOfRank(r: nat, myRank: nat): nat
  {
    if r > myRank then r - 1 else r
  }

  /**
   * The receive slots 0 .. NumProc-2 are mapped one to one onto the ranks
   * other than the receiver's own: every source is a valid rank, never the
   * receiver, no two slots share a source, and every other rank has a slot.
   */
  lemma HeaderSourcesAreTheOtherRanks(numProc: nat, myRank: nat)
    requires myRank < numProc
    ensures forall j :: 0 <= j < numProc - 1 ==> HeaderSource(j, myRank) < numProc && HeaderSource(j, myRank) != myRank
    ensures forall j, j' :: 0 <= j < j' < numProc - 1 ==> HeaderSource(j, myRank) != HeaderSource(j', myRank)
    ensures forall r :: 0 <= r < numProc && r != myRank ==>
      SlotOfRank(r, myRank) < numProc - 1 && HeaderSource(SlotOfRank(r, myRank), myRank) == r
  {
  }

  /** SlotOfRank undoes HeaderSource, and the other way round for every other rank. */
  lemma SlotOfRankInvertsHeaderSource(j: nat, r: nat, myRank: nat)
    ensures SlotOfRank(HeaderSource(j, myRank), myRank) == j
    ensures r != myRank ==> HeaderSource(SlotOfRank(r, myRank), myRank) == r
  {
  }

  /**
   * The receive loop of the main node: one receive per slot j in
   * [0, NumProc-1), from rank HeaderSource(j). The result lists the source
   * of each slot; it names every other rank exactly once.
   */
  method PostHeaderReceives(numProc: nat, myRank: nat) returns (sources: seq<nat>)
    requires myRank < numProc
    ensures |sources| == numProc - 1
    ensures forall j :: 0 <= j < |sources| ==> sources[j] < numProc && sources[j] != myRank
    ensures Distinct(sources)
    ensures forall r :: 0 <= r < numProc && r != myRank ==> r in sources
  {
    sources := [];
    var j := 0;
    while j < numProc - 1
      invariant j <= numProc - 1 && |sources| == j
      invariant forall k :: 0 <= k < j ==> sources[k] == HeaderSource(k, myRank)
    {
      var source := if j >= myRank then j + 1 else j;
      sources := sources + [source];
      j := j + 1;
    }
    HeaderSourcesAreTheOtherRanks(numProc, myRank);
    forall r | 0 <= r < numProc && r != myRank
      ensures r in sources
    {
      assert sources[SlotOfRank(r, myRank)] == r;
    }
  }

  /**
   * The slots whose headers arrive, in arrival order, when the wait for a
   * completed receive reports `completions` one after another (None for
   * MPI_UNDEFINED, also read past the end), stopping after `limit` headers.
   */
  function Arrived(completions: seq<Option<nat>>, limit: nat): seq<nat>
  {
    if limit == 0 || completions == [] || completions[0].None? then []
    else [completions[0].value] + Arrived(completions[1..], limit - 1)
  }

  /** The first n waits all reported a completed receive. */
  predicate AllCompleted(completions: seq<Option<nat>>, n: nat)
  {
    n <= |completions| && forall t :: 0 <= t < n ==> completions[t].Some?
  }

  lemma {:induction false} ArrivedPrefix(completions: seq<Option<nat>>, limit: nat, n: nat)
    requires n <= limit && AllCompleted(completions, n)
    ensures |Arrived(completions, n)| == n
    ensures forall t :: 0 <= t < n ==> Arrived(completions, n)[t] == completions[t].value
    ensures n == limit || n == |completions| || completions[n].None? ==>
      Arrived(completions, limit) == Arrived(completions, n)
  {
    if n > 0 {
      var rest := completions[1..];
      assert AllCompleted(rest, n - 1) by {
        forall t | 0 <= t < n - 1
          ensures rest[t].Some?
        {
          assert rest[t] == completions[t + 1];
        }
      }
      ArrivedPrefix(rest, limit - 1, n - 1);
      assert Arrived(completions, n) == [completions[0].value] + Arrived(rest, n - 1);
      forall t | 0 <= t < n
        ensures Arrived(completions, n)[t] == completions[t].value
      {
        if t > 0 {
          assert rest[t - 1] == completions[t];
        }
      }
    }
  }

  lemma {:induction false} ArrivedAtMost(completions: seq<Option<nat>>, limit: nat)
    ensures |Arrived(completions, limit)| <= limit
    ensures |Arrived(completions, limit)| == limit <==> AllCompleted(completions, limit)
  {
    if limit > 0 && completions != [] && completions[0].Some? {
      ArrivedAtMost(completions[1..], limit - 1);
      if AllCompleted(completions[1..], limit - 1) {
        assert AllCompleted(completions, limit) by {
          forall t | 0 <= t < limit
            ensures completions[t].Some?
          {
            if t > 0 {
              assert completions[t] == completions[1..][t - 1];
            }
          }
        }
      }
      if AllCompleted(completions, limit) {
        assert AllCompleted(completions[1..], limit - 1) by {
          forall t | 0 <= t < limit - 1
            ensures completions[1..][t].Some?
          {
            assert completions[1..][t] == completions[t + 1];
          }
        }
      }
    }
  }

  /**
   * The wait loop of the main node. It counts at most NumProc-1 headers,
   * folds them in in arrival order, and counts exactly NumProc-1 (what the
   * source asserts afterwards) precisely when none of the first NumProc-1
   * waits reported MPI_UNDEFINED.
   */
  method AwaitHeaders(numProc: nat, completions: seq<Option<nat>>) returns (received: nat, order: seq<nat>)
    requires numProc >= 1
    ensures received == |order| <= numProc - 1
    ensures order == Arrived(completions, numProc - 1)
    ensures received == numProc - 1 <==> AllCompleted(completions, numProc - 1)
  {
    received := 0;
    order := [];
    while received < numProc - 1
      invariant received <= numProc - 1 && |order| == received
      invariant AllCompleted(completions, received)
      invariant forall t :: 0 <= t < received ==> order[t] == completions[t].value
    {
      var idx := if received < |completions| then completions[received] else None;
      if idx.None? {
        break;
      }
      received := received + 1;
      order := order + [idx.value];
    }
    ArrivedPrefix(completions, numProc - 1, received);
    ArrivedAtMost(completions, numProc - 1);
  }
}
