/**
 * The light client's keeper as an object: the stored headers, the canonical
 * height index, the tip and the rollback record are fields that
 * `InsertHeaders` updates in place. Each operation is proved against the
 * reference behaviour in `HeaderChain`, so everything proved there about
 * `Insert` holds of the store.
 */
module LightClientStore {
  import opened Wrappers
  import opened BtcTypes
  import opened HeaderChain
  import BtcStaking
  import ChainProperties

  class ChainStore {
    /** The authorized reporters; empty means anyone may submit. */
    const reporters: set<Address>
    /** Per-header proof-of-work checks and work contribution. */
    const validator: HeaderValidator
    /** The height of the header the store was started from. */
    const baseHeight: nat

    var headers: map<Hash, HeaderInfo>
    /** `heightIndex[i]` is the canonical header at height `baseHeight + i`. */
    var heightIndex: seq<Hash>
    var tip: HeaderInfo
    var largestReorg: Option<BtcStaking.LargestBtcReOrg>

    /** The store's contents as a value. */
    function State(): ChainState
      reads this
    {
      ChainState(headers, heightIndex, tip, baseHeight, largestReorg)
    }

    ghost predicate Valid()
      reads this
    {
      WF(State(), validator)
    }

    /** A store holding only the base header, with the given cumulative work. */
    constructor (base: BlockHeader, height: nat, work: nat, reporters: set<Address>, validator: HeaderValidator)
      ensures Valid()
      ensures State() == Genesis(base, height, work)
      ensures this.reporters == reporters && this.validator == validator
    {
      this.reporters := reporters;
      this.validator := validator;
      baseHeight := height;
      var info := HeaderInfo(base, base.hash, height, work);
      headers := map[base.hash := info];
      heightIndex := [base.hash];
      tip := info;
      largestReorg := None;
    }

    /** The canonical tip: a stored header with no less work than any other. */
    function GetTipInfo(): (t: HeaderInfo)
      requires Valid()
      reads this
      ensures t.hash in headers && headers[t.hash] == t
      ensures forall h :: h in headers ==> headers[h].work <= t.work
      ensures t.height == baseHeight + |heightIndex| - 1
      ensures |heightIndex| > 0 && heightIndex[|heightIndex| - 1] == t.hash
    {
      tip
    }

    /**
     * The canonical header at `height`: present exactly between the base and
     * the tip, and then the tip's ancestor at that height.
     */
    function GetHeaderByHeight(height: nat): (r: Option<HeaderInfo>)
      requires Valid()
      reads this
      ensures r.Some? <==> baseHeight <= height <= tip.height
      ensures r.Some? ==> && r.value.height == height
                          && r.value.hash in headers && headers[r.value.hash] == r.value
                          && r.value.hash == AncestorAt(headers, baseHeight, tip.hash, height)
    {
      ChainProperties.MainChainIsTipAncestry(State());
      if height < baseHeight || height - baseHeight >= |heightIndex| then None
      else Some(headers[heightIndex[height - baseHeight]])
    }

    /** Whether no header of the batch is stored already or repeats an earlier one. */
    method CheckNovel(batch: seq<BlockHeader>) returns (novel: bool)
      ensures novel <==> Novel(headers, batch)
    {
      var seen: set<Hash> := {};
      var i := 0;
      while i < |batch|
        invariant 0 <= i <= |batch|
        invariant seen == set k | 0 <= k < i :: batch[k].hash
        invariant forall k :: 0 <= k < i ==> NovelAt(headers, batch, k)
      {
        if batch[i].hash in headers || batch[i].hash in seen {
          assert !NovelAt(headers, batch, i);
          return false;
        }
        seen := seen + {batch[i].hash};
        i := i + 1;
      }
      return true;
    }

    /** Validates the batch header by header on top of `parent`, each on top of the one before. */
    method StageBatch(parent: HeaderInfo, batch: seq<BlockHeader>) returns (r: Result<seq<HeaderInfo>, InsertError>)
      ensures r == Stage(validator, parent, batch)
    {
      var staged: seq<HeaderInfo> := [];
      var prev := parent;
      var i := 0;
      while i < |batch|
        invariant 0 <= i <= |batch|
        invariant Stage(validator, parent, batch[..i]) == Success(staged)
        invariant prev == Predecessor(parent, staged)
      {
        var h := batch[i];
        assert batch[..i + 1][..i] == batch[..i];
        if h.prevBlock != prev.hash {
          ChainProperties.StageFailurePersists(validator, parent, batch, i + 1);
          return Failure(InvalidHeader(i, NotLinked));
        }
        var verdict := validator.check(h, prev);
        if verdict.Some? {
          ChainProperties.StageFailurePersists(validator, parent, batch, i + 1);
          return Failure(InvalidHeader(i, verdict.value));
        }
        var info := HeaderInfo(h, h.hash, prev.height + 1, prev.work + validator.work(h));
        staged := staged + [info];
        prev := info;
        i := i + 1;
      }
      assert batch[..i] == batch;
      return Success(staged);
    }

    /**
     * Walks back from `start` by parent hashes to the first canonical header:
     * the fork point of `start`'s branch, and the new canonical index up to `start`.
     */
    static method WalkToMain(s: ChainState, start: HeaderInfo) returns (fork: HeaderInfo, index: seq<Hash>)
      requires Structure(s) && start.hash in s.headers && s.headers[start.hash] == start
      ensures fork == ForkPoint(s, start.hash)
      ensures index == ChainTo(s, start.hash)
    {
      var cur := start;
      var branch: seq<Hash> := [];
      while !OnMainChain(s, cur.hash)
        invariant cur.hash in s.headers && s.headers[cur.hash] == cur
        invariant ChainTo(s, start.hash) == ChainTo(s, cur.hash) + branch
        invariant ForkPoint(s, start.hash) == ForkPoint(s, cur.hash)
        decreases cur.height
      {
        ChainProperties.WalkStep(s, cur.hash);
        var up := s.headers[cur.header.prevBlock];
        assert ChainTo(s, cur.hash) + branch == ChainTo(s, up.hash) + ([cur.hash] + branch);
        branch := [cur.hash] + branch;
        cur := up;
      }
      ChainProperties.WalkStop(s, cur.hash);
      return cur, s.mainChain[..cur.height - s.baseHeight + 1] + branch;
    }

    /**
     * Submits `batch` on behalf of `signer`. A refused batch changes nothing;
     * an accepted one is stored whole, and becomes canonical when its last
     * header carries strictly more work than the tip. An accepted batch
     * gives back the resulting tip, whether or not it changed.
     */
    method InsertHeaders(signer: Address, batch: seq<BlockHeader>) returns (res: Result<HeaderInfo, InsertError>)
      requires Valid()
      modifies this
      ensures Valid()
      ensures Insert(old(State()), reporters, validator, signer, batch)
                == if res.Success? then Success(State()) else Failure(res.error)
      ensures res.Success? ==> res.value == tip
      ensures res.Failure? ==> State() == old(State())
    {
      ghost var s0 := State();
      if !(|reporters| == 0 || signer in reporters) {
        return Failure(UnauthorizedReporter);
      }
      if |batch| == 0 {
        return Failure(EmptyHeaders);
      }
      var novel := CheckNovel(batch);
      if !novel {
        return Failure(ForkStartWithKnownHeader);
      }
      if batch[0].prevBlock !in headers {
        return Failure(ParentNotFound);
      }
      var parent := headers[batch[0].prevBlock];
      var staging := StageBatch(parent, batch);
      if staging.Failure? {
        return Failure(staging.error);
      }
      var staged := staging.value;
      ChainProperties.InsertAccepts(s0, reporters, validator, signer, batch);
      ChainProperties.InsertPreservesWF(s0, reporters, validator, signer, batch);
      CommitStaged(parent, staged);
      return Success(tip);
    }

    /**
     * Stores the staged branch; it becomes canonical, with the rollback to its
     * fork point recorded, only when its last header has strictly more work
     * than the tip.
     */
    method CommitStaged(parent: HeaderInfo, staged: seq<HeaderInfo>)
      requires Valid() && parent.hash in headers && headers[parent.hash] == parent && |staged| > 0
      modifies this
      ensures State() == Commit(old(State()), parent, staged)
    {
      ghost var s0 := State();
      var last := staged[|staged| - 1];
      if last.work > tip.work {
        ChainProperties.CommitHeavierShape(s0, parent, staged);
        var fork, prefix := WalkToMain(State(), parent);
        var index := AppendHashes(prefix, staged);
        RecordRollback(fork);
        StoreAll(staged);
        heightIndex := index;
        tip := last;
      } else {
        ChainProperties.CommitLighterShape(s0, parent, staged);
        StoreAll(staged);
      }
    }

    /** `prefix` followed by the hashes of the staged headers, in order. */
    static method AppendHashes(prefix: seq<Hash>, staged: seq<HeaderInfo>) returns (index: seq<Hash>)
      ensures index == prefix + Hashes(staged)
    {
      index := prefix;
      var i := 0;
      while i < |staged|
        invariant 0 <= i <= |staged|
        invariant index == prefix + Hashes(staged[..i])
      {
        assert Hashes(staged[..i + 1]) == Hashes(staged[..i]) + [staged[i].hash];
        index := index + [staged[i].hash];
        i := i + 1;
      }
      assert staged[..i] == staged;
    }

    /** Records the rollback from the tip down to `fork` when it is deeper than the recorded one. */
    method RecordRollback(fork: HeaderInfo)
      modifies this
      ensures largestReorg == TrackReorg(old(largestReorg), tip, fork)
      ensures headers == old(headers) && heightIndex == old(heightIndex) && tip == old(tip)
    {
      if fork.height < tip.height {
        var candidate := BtcStaking.NewLargestBtcReOrg(tip, fork);
        if largestReorg.None? || largestReorg.value.blockDiff < candidate.blockDiff {
          largestReorg := Some(candidate);
        }
      }
    }

    /** Adds each staged header under its hash, later ones last. */
    method StoreAll(staged: seq<HeaderInfo>)
      modifies this
      ensures headers == AddAll(old(headers), staged)
      ensures heightIndex == old(heightIndex) && tip == old(tip) && largestReorg == old(largestReorg)
    {
      ghost var m0 := headers;
      var i := 0;
      while i < |staged|
        invariant 0 <= i <= |staged|
        invariant headers == AddAll(m0, staged[..i])
        invariant heightIndex == old(heightIndex) && tip == old(tip) && largestReorg == old(largestReorg)
      {
        assert staged[..i + 1][..i] == staged[..i];
        headers := headers[staged[i].hash := staged[i]];
        i := i + 1;
      }
      assert staged[..i] == staged;
    }
  }
}
