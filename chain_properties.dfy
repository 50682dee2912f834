/**
 * What inserting headers guarantees: the store stays well formed (linkage,
 * work monotonicity, tip maximality), extending the tip and switching to a
 * heavier fork move the tip as the light client's tests expect, a lighter
 * branch is stored without becoming canonical, and rejected submissions are
 * told apart by their error.
 */
module ChainProperties {
  import opened Wrappers
  import opened BtcTypes
  import opened HeaderChain
  import BtcStaking

  // ---------------------------------------------------------------------------
  // Staging

  /** The staged headers are the batch, linked one to the next from `parent`, with growing work. */
  lemma {:induction false} StageFacts(v: HeaderValidator, parent: HeaderInfo, batch: seq<BlockHeader>)
    requires Stage(v, parent, batch).Success?
    ensures var st := Stage(v, parent, batch).value;
      && (forall j :: 0 <= j < |st| ==> st[j].header == batch[j] && st[j].hash == batch[j].hash)
      && (|st| > 0 ==> LinksTo(v, st[0], parent))
      && (forall i, j :: 0 <= i && j == i + 1 && j < |st| ==> LinksTo(v, st[j], st[i]))
      && (forall j :: 0 <= j < |st| ==> st[j].height == parent.height + 1 + j)
      && (forall j :: 0 <= j < |st| ==> parent.work < st[j].work <= Predecessor(parent, st).work)
      && Predecessor(parent, st).work == parent.work + SumWork(v, batch)
      && Predecessor(parent, st).height == parent.height + |batch|
    decreases |batch|
  {
    if |batch| > 0 {
      var n := |batch| - 1;
      var pre := batch[..n];
      StageFacts(v, parent, pre);
      var st0 := Stage(v, parent, pre).value;
      var st := Stage(v, parent, batch).value;
      var prev := Predecessor(parent, st0);
      assert st == st0 + [st[n]];
      assert ExtendBy(v, prev, batch[n], n) == Success(st[n]);
      assert LinksTo(v, st[n], prev);
      assert forall j :: 0 <= j < n ==> st[j] == st0[j];
      assert n > 0 ==> prev == st[n - 1];
      assert forall j :: 0 <= j < n ==> pre[j] == batch[j];
    }
  }

  /** Once a prefix of the batch is rejected, the whole batch is rejected with the same error. */
  lemma {:induction false} StageFailurePersists(v: HeaderValidator, parent: HeaderInfo, batch: seq<BlockHeader>, k: nat)
    requires k <= |batch| && Stage(v, parent, batch[..k]).Failure?
    ensures Stage(v, parent, batch) == Stage(v, parent, batch[..k])
    decreases |batch|
  {
    if k == |batch| {
      assert batch[..k] == batch;
    } else {
      var n := |batch| - 1;
      assert batch[..n][..k] == batch[..k];
      StageFailurePersists(v, parent, batch[..n], k);
    }
  }

  /** The work of a non-empty batch is positive, since every header carries some. */
  lemma {:induction false} SumWorkPositive(v: HeaderValidator, batch: seq<BlockHeader>)
    requires |batch| > 0
    ensures SumWork(v, batch) > 0
  {
  }

  // ---------------------------------------------------------------------------
  // Adding headers to the map

  /** Adding brings in no key other than the staged hashes. */
  lemma {:induction false} AddAllDomain(m: map<Hash, HeaderInfo>, st: seq<HeaderInfo>)
    ensures forall h :: h in AddAll(m, st) ==> h in m || exists j :: 0 <= j < |st| && st[j].hash == h
    decreases |st|
  {
    if |st| > 0 {
      var n := |st| - 1;
      var pre := st[..n];
      AddAllDomain(m, pre);
      forall h | h in AddAll(m, st)
        ensures h in m || exists j :: 0 <= j < |st| && st[j].hash == h
      {
        if h != st[n].hash && h !in m {
          var j :| 0 <= j < |pre| && pre[j].hash == h;
          assert st[j].hash == h;
        }
      }
    }
  }

  /** Adding headers under fresh hashes leaves every stored header as it was. */
  lemma {:induction false} AddAllKeeps(m: map<Hash, HeaderInfo>, st: seq<HeaderInfo>)
    requires forall j :: 0 <= j < |st| ==> st[j].hash !in m
    ensures forall h :: h in m ==> h in AddAll(m, st) && AddAll(m, st)[h] == m[h]
    decreases |st|
  {
    if |st| > 0 {
      var n := |st| - 1;
      var pre := st[..n];
      assert forall j :: 0 <= j < |pre| ==> pre[j] == st[j];
      AddAllKeeps(m, pre);
    }
  }

  /** With distinct hashes, each staged header is found under its own hash. */
  lemma {:induction false} AddAllStores(m: map<Hash, HeaderInfo>, st: seq<HeaderInfo>)
    requires forall i, j :: 0 <= i < j < |st| ==> st[i].hash != st[j].hash
    ensures forall j :: 0 <= j < |st| ==> st[j].hash in AddAll(m, st) && AddAll(m, st)[st[j].hash] == st[j]
    decreases |st|
  {
    if |st| > 0 {
      var n := |st| - 1;
      var pre := st[..n];
      assert forall j :: 0 <= j < |pre| ==> pre[j] == st[j];
      AddAllStores(m, pre);
    }
  }

  lemma {:induction false} AddAllFacts(m: map<Hash, HeaderInfo>, st: seq<HeaderInfo>)
    requires forall j :: 0 <= j < |st| ==> st[j].hash !in m
    requires forall i, j :: 0 <= i < j < |st| ==> st[i].hash != st[j].hash
    ensures forall h :: h in AddAll(m, st) ==> h in m || exists j :: 0 <= j < |st| && st[j].hash == h
    ensures forall h :: h in m ==> h in AddAll(m, st) && AddAll(m, st)[h] == m[h]
    ensures forall j :: 0 <= j < |st| ==> st[j].hash in AddAll(m, st) && AddAll(m, st)[st[j].hash] == st[j]
  {
    AddAllDomain(m, st);
    AddAllKeeps(m, st);
    AddAllStores(m, st);
  }

  /** Every staged hash is a key after adding, whatever the map held before. */
  lemma {:induction false} AddAllHas(m: map<Hash, HeaderInfo>, st: seq<HeaderInfo>, j: nat)
    requires j < |st|
    ensures st[j].hash in AddAll(m, st)
    decreases |st|
  {
    var n := |st| - 1;
    if j < n {
      AddAllHas(m, st[..n], j);
      assert st[..n][j] == st[j];
    }
  }

  // ---------------------------------------------------------------------------
  // Ancestry

  lemma {:induction false} IsChainFrame(m: map<Hash, HeaderInfo>, m': map<Hash, HeaderInfo>, c: seq<Hash>, start: nat)
    requires IsChain(m, c, start)
    requires forall h :: h in m ==> h in m' && m'[h] == m[h]
    ensures IsChain(m', c, start)
  {
  }

  /** One step of the walk back: an off-chain header's chain and fork point are its parent's. */
  lemma {:induction false} WalkStep(s: ChainState, h: Hash)
    requires Structure(s) && h in s.headers && !OnMainChain(s, h)
    ensures s.headers[h].header.prevBlock in s.headers
    ensures s.headers[h].height == s.headers[s.headers[h].header.prevBlock].height + 1
    ensures ChainTo(s, h) == ChainTo(s, s.headers[h].header.prevBlock) + [h]
    ensures ForkPoint(s, h) == ForkPoint(s, s.headers[h].header.prevBlock)
  {
    OffMainHasParent(s, h);
  }

  /** The walk back ends at a canonical header, which is its own fork point. */
  lemma {:induction false} WalkStop(s: ChainState, h: Hash)
    requires Structure(s) && h in s.headers && OnMainChain(s, h)
    ensures ChainTo(s, h) == s.mainChain[..s.headers[h].height - s.baseHeight + 1]
    ensures ForkPoint(s, h) == s.headers[h]
  {
  }

  /** A chain extended by a stored child of its last header is a chain. */
  lemma {:induction false} IsChainSnoc(m: map<Hash, HeaderInfo>, c: seq<Hash>, start: nat, h: Hash)
    requires IsChain(m, c, start) && |c| > 0
    requires h in m && m[h].height == start + |c| && m[h].header.prevBlock == c[|c| - 1]
    ensures IsChain(m, c + [h], start)
  {
    var c' := c + [h];
    assert forall i :: 0 <= i < |c| ==> c'[i] == c[i];
  }

  /** A prefix of a chain is a chain. */
  lemma {:induction false} IsChainPrefix(m: map<Hash, HeaderInfo>, c: seq<Hash>, start: nat, k: nat)
    requires IsChain(m, c, start) && k <= |c|
    ensures IsChain(m, c[..k], start)
  {
  }

  /** Walking back from a stored header yields a chain from the base ending in it. */
  lemma {:induction false} ChainToFacts(s: ChainState, h: Hash)
    requires Structure(s) && h in s.headers
    ensures var c := ChainTo(s, h);
      && |c| == s.headers[h].height - s.baseHeight + 1
      && IsChain(s.headers, c, s.baseHeight)
      && c[|c| - 1] == h
      && c[0] == s.mainChain[0]
    decreases s.headers[h].height
  {
    if !OnMainChain(s, h) {
      WalkStep(s, h);
      var p := s.headers[h].header.prevBlock;
      ChainToFacts(s, p);
      var cp := ChainTo(s, p);
      IsChainSnoc(s.headers, cp, s.baseHeight, h);
      assert (cp + [h])[0] == cp[0];
    } else {
      WalkStop(s, h);
      IsChainPrefix(s.headers, s.mainChain, s.baseHeight, s.headers[h].height - s.baseHeight + 1);
    }
  }

  /** The ancestor of a stored header is stored. */
  lemma {:induction false} AncestorStored(headers: map<Hash, HeaderInfo>, base: nat, h: Hash, height: nat)
    requires ParentsStored(headers, base) && h in headers && base <= height
    ensures AncestorAt(headers, base, h, height) in headers
    decreases headers[h].height
  {
    if headers[h].height > height {
      assert HasParent(headers, base, h);
      AncestorStored(headers, base, headers[h].header.prevBlock, height);
    }
  }

  /**
   * Walking back from a stored header reaches its highest canonical
   * ancestor: a canonical header no higher than it, which is its ancestor
   * at that height, with no canonical header on its ancestry above it. This
   * is the point where `h`'s branch leaves the canonical chain, the header a
   * rollback to that branch goes back to.
   */
  lemma {:induction false} ForkPointFacts(s: ChainState, h: Hash)
    requires Structure(s) && h in s.headers
    ensures var f := ForkPoint(s, h);
      && f.hash in s.headers && s.headers[f.hash] == f && OnMainChain(s, f.hash)
      && s.baseHeight <= f.height <= s.headers[h].height
      && AncestorAt(s.headers, s.baseHeight, h, f.height) == f.hash
      && forall x :: f.height < x <= s.headers[h].height ==>
           && AncestorAt(s.headers, s.baseHeight, h, x) in s.headers
           && !OnMainChain(s, AncestorAt(s.headers, s.baseHeight, h, x))
    decreases s.headers[h].height
  {
    if !OnMainChain(s, h) {
      WalkStep(s, h);
      var p := s.headers[h].header.prevBlock;
      ForkPointFacts(s, p);
      assert HasParent(s.headers, s.baseHeight, h);
      var f := ForkPoint(s, h);
      forall x | f.height < x <= s.headers[h].height
        ensures AncestorAt(s.headers, s.baseHeight, h, x) in s.headers
        ensures !OnMainChain(s, AncestorAt(s.headers, s.baseHeight, h, x))
      {
        AncestorStored(s.headers, s.baseHeight, h, x);
        if x <= s.headers[p].height {
          assert AncestorAt(s.headers, s.baseHeight, h, x) == AncestorAt(s.headers, s.baseHeight, p, x);
        }
      }
    } else {
      WalkStop(s, h);
    }
  }

  /** A canonical header is its own fork point, and the chain to it is the canonical prefix. */
  lemma {:induction false} WalkOnMain(s: ChainState, k: nat)
    requires Structure(s) && k < |s.mainChain|
    ensures s.mainChain[k] in s.headers && OnMainChain(s, s.mainChain[k])
    ensures ForkPoint(s, s.mainChain[k]) == s.headers[s.mainChain[k]]
    ensures ChainTo(s, s.mainChain[k]) == s.mainChain[..k + 1]
  {
  }

  /** Following parents down from the canonical header of index `j` passes the one of index `i`. */
  lemma {:induction false} AncestorOnMain(s: ChainState, i: nat, j: nat)
    requires Structure(s) && i <= j < |s.mainChain|
    ensures AncestorAt(s.headers, s.baseHeight, s.mainChain[j], s.baseHeight + i) == s.mainChain[i]
    decreases j
  {
    if i < j {
      AncestorOnMain(s, i, j - 1);
    }
  }

  /**
   * The canonical index agrees with the tip's ancestry: the header recorded at
   * each height is the tip's ancestor at that height, by parent hashes alone.
   */
  lemma {:induction false} MainChainIsTipAncestry(s: ChainState)
    requires Structure(s)
    ensures s.tip.hash in s.headers
    ensures forall i :: 0 <= i < |s.mainChain| ==>
              AncestorAt(s.headers, s.baseHeight, s.tip.hash, s.baseHeight + i) == s.mainChain[i]
  {
    var n := |s.mainChain| - 1;
    assert s.tip.hash == s.mainChain[n];
    forall i | 0 <= i < |s.mainChain|
      ensures AncestorAt(s.headers, s.baseHeight, s.tip.hash, s.baseHeight + i) == s.mainChain[i]
    {
      AncestorOnMain(s, i, n);
    }
  }

  // ---------------------------------------------------------------------------
  // Preservation of well-formedness

  /** The staged headers carry hashes that are new and distinct, so adding them keeps and finds every header. */
  lemma {:induction false} StagedAdded(s: ChainState, v: HeaderValidator, parent: HeaderInfo, batch: seq<BlockHeader>, st: seq<HeaderInfo>)
    requires Novel(s.headers, batch)
    requires Stage(v, parent, batch) == Success(st)
    ensures forall h :: h in AddAll(s.headers, st) ==> h in s.headers || exists j :: 0 <= j < |st| && st[j].hash == h
    ensures forall h :: h in s.headers ==> h in AddAll(s.headers, st) && AddAll(s.headers, st)[h] == s.headers[h]
    ensures forall j :: 0 <= j < |st| ==> st[j].hash in AddAll(s.headers, st) && AddAll(s.headers, st)[st[j].hash] == st[j]
  {
    StageFacts(v, parent, batch);
    forall j | 0 <= j < |st| ensures st[j].hash !in s.headers {
      assert NovelAt(s.headers, batch, j);
    }
    forall i, j | 0 <= i < j < |st| ensures st[i].hash != st[j].hash {
      assert NovelAt(s.headers, batch, j);
    }
    AddAllFacts(s.headers, st);
  }

  /** A header the batch added is stored under its hash above the base, on top of its stored predecessor. */
  lemma {:induction false} NewHeaderAt(s: ChainState, v: HeaderValidator, parent: HeaderInfo, batch: seq<BlockHeader>, st: seq<HeaderInfo>, j: nat)
    requires WF(s, v)
    requires parent.hash in s.headers && s.headers[parent.hash] == parent
    requires Novel(s.headers, batch)
    requires Stage(v, parent, batch) == Success(st)
    requires j < |st|
    ensures var m' := AddAll(s.headers, st); var h := st[j].hash;
      && h in m' && m'[h] == st[j]
      && m'[h].hash == h && m'[h].header.hash == h && s.baseHeight < m'[h].height
      && HasParent(m', s.baseHeight, h) && WorkLinked(m', v, s.baseHeight, h)
      && m'[h].work <= st[|st| - 1].work
  {
    StageFacts(v, parent, batch);
    StagedAdded(s, v, parent, batch, st);
    assert s.baseHeight <= parent.height;
    if j > 0 {
      assert LinksTo(v, st[j], st[j - 1]);
    }
  }

  /** Facts about the header map after adding a staged batch. */
  lemma {:induction false} NewHeadersFacts(s: ChainState, v: HeaderValidator, parent: HeaderInfo, batch: seq<BlockHeader>, st: seq<HeaderInfo>)
    requires WF(s, v)
    requires parent.hash in s.headers && s.headers[parent.hash] == parent
    requires |batch| > 0 && Novel(s.headers, batch)
    requires Stage(v, parent, batch) == Success(st)
    ensures var m' := AddAll(s.headers, st);
      && KeysMatch(m', s.baseHeight)
      && ParentsStored(m', s.baseHeight)
      && WorkConsistent(m', v, s.baseHeight)
      && (forall h :: h in s.headers ==> h in m' && m'[h] == s.headers[h])
      && (forall j :: 0 <= j < |st| ==> st[j].hash in m' && m'[st[j].hash] == st[j])
      && (forall h :: h in m' && m'[h].height == s.baseHeight ==> h in s.headers)
      && (forall h :: h in m' ==> h in s.headers || m'[h].work <= st[|st| - 1].work)
  {
    StagedAdded(s, v, parent, batch, st);
    var m' := AddAll(s.headers, st);
    var base := s.baseHeight;
    forall h: Hash
      ensures HasParent(m', base, h) && WorkLinked(m', v, base, h)
      ensures h in m' ==> m'[h].hash == h && m'[h].header.hash == h && base <= m'[h].height
      ensures h in m' && m'[h].height == base ==> h in s.headers
      ensures h in m' ==> h in s.headers || m'[h].work <= st[|st| - 1].work
    {
      if h in m' && h !in s.headers {
        var j :| 0 <= j < |st| && st[j].hash == h;
        NewHeaderAt(s, v, parent, batch, st, j);
      } else if h in m' {
        OldHeaderKept(s, v, m', h);
      }
    }
  }

  /** A header stored before keeps its parent link and work link in a map that extends the old one. */
  lemma {:induction false} OldHeaderKept(s: ChainState, v: HeaderValidator, m': map<Hash, HeaderInfo>, h: Hash)
    requires WF(s, v) && h in s.headers
    requires forall x :: x in s.headers ==> x in m' && m'[x] == s.headers[x]
    ensures HasParent(m', s.baseHeight, h) && WorkLinked(m', v, s.baseHeight, h)
  {
    assert HasParent(s.headers, s.baseHeight, h) && WorkLinked(s.headers, v, s.baseHeight, h);
  }

  /** The store a heavier branch leaves: the branch is canonical and its last header is the tip. */
  lemma {:induction false} CommitHeavierShape(s: ChainState, parent: HeaderInfo, st: seq<HeaderInfo>)
    requires Structure(s) && parent.hash in s.headers && |st| > 0
    requires st[|st| - 1].work > s.tip.work
    ensures Commit(s, parent, st) == ChainState(AddAll(s.headers, st), ChainTo(s, parent.hash) + Hashes(st),
      st[|st| - 1], s.baseHeight, TrackReorg(s.largestReorg, s.tip, ForkPoint(s, parent.hash)))
  {
  }

  /** The store a lighter branch leaves: only the header map changes. */
  lemma {:induction false} CommitLighterShape(s: ChainState, parent: HeaderInfo, st: seq<HeaderInfo>)
    requires Structure(s) && parent.hash in s.headers && |st| > 0
    requires st[|st| - 1].work <= s.tip.work
    ensures Commit(s, parent, st) == s.(headers := AddAll(s.headers, st))
  {
  }

  /** The well-formedness conditions, gathered for a store given by its parts. */
  lemma {:induction false} AssembleWF(m: map<Hash, HeaderInfo>, mc: seq<Hash>, tip: HeaderInfo, base: nat, r: Option<BtcStaking.LargestBtcReOrg>, v: HeaderValidator)
    requires KeysMatch(m, base) && ParentsStored(m, base) && WorkConsistent(m, v, base)
    requires |mc| > 0 && IsChain(m, mc, base)
    requires mc[|mc| - 1] == tip.hash && tip.hash in m && m[tip.hash] == tip
    requires forall h :: h in m && m[h].height == base ==> h == mc[0]
    requires forall h :: h in m ==> m[h].work <= tip.work
    requires ReorgRecordOk(r)
    ensures WF(ChainState(m, mc, tip, base, r), v)
  {
  }

  /** The rollback record stays well formed when a deeper rollback replaces it. */
  lemma {:induction false} TrackReorgOk(current: Option<BtcStaking.LargestBtcReOrg>, oldTip: HeaderInfo, fork: HeaderInfo)
    requires ReorgRecordOk(current)
    ensures ReorgRecordOk(TrackReorg(current, oldTip, fork))
  {
  }

  lemma {:induction false} CommitHeavierWF(s: ChainState, v: HeaderValidator, parent: HeaderInfo, batch: seq<BlockHeader>, st: seq<HeaderInfo>)
    requires WF(s, v)
    requires parent.hash in s.headers && s.headers[parent.hash] == parent
    requires |batch| > 0 && Novel(s.headers, batch)
    requires Stage(v, parent, batch) == Success(st)
    requires st[|st| - 1].work > s.tip.work
    ensures WF(Commit(s, parent, st), v)
  {
    NewHeadersFacts(s, v, parent, batch, st);
    var m' := AddAll(s.headers, st);
    var last := st[|st| - 1];
    ChainToFacts(s, parent.hash);
    var c := ChainTo(s, parent.hash);
    IsChainFrame(s.headers, m', c, s.baseHeight);
    var mc := c + Hashes(st);
    var r := TrackReorg(s.largestReorg, s.tip, ForkPoint(s, parent.hash));
    CommitHeavierShape(s, parent, st);
    ChainThenBranch(m', c, s.baseHeight, v, parent, batch, st);
    TrackReorgOk(s.largestReorg, s.tip, ForkPoint(s, parent.hash));
    assert mc[0] == s.mainChain[0];
    forall h | h in m' && m'[h].height == s.baseHeight
      ensures h == mc[0]
    {
      assert h in s.headers;
    }
    forall h | h in m'
      ensures m'[h].work <= last.work
    {
      if h in s.headers {
        assert m'[h].work == s.headers[h].work <= s.tip.work;
      }
    }
    AssembleWF(m', mc, last, s.baseHeight, r, v);
  }

  /** Appending a staged branch to a chain ending in its parent gives a chain. */
  lemma {:induction false} ChainThenBranch(m: map<Hash, HeaderInfo>, c: seq<Hash>, start: nat, v: HeaderValidator, parent: HeaderInfo, batch: seq<BlockHeader>, st: seq<HeaderInfo>)
    requires IsChain(m, c, start) && |c| > 0 && c[|c| - 1] == parent.hash
    requires |c| == parent.height - start + 1
    requires Stage(v, parent, batch) == Success(st)
    requires forall j :: 0 <= j < |st| ==> st[j].hash in m && m[st[j].hash] == st[j]
    ensures IsChain(m, c + Hashes(st), start)
  {
    StageFacts(v, parent, batch);
    var mc := c + Hashes(st);
    forall i | 0 <= i < |mc|
      ensures mc[i] in m && m[mc[i]].height == start + i
    {
      if i >= |c| {
        assert mc[i] == st[i - |c|].hash;
      } else {
        assert mc[i] == c[i];
      }
    }
    forall i | 0 < i < |mc|
      ensures m[mc[i]].header.prevBlock == mc[i - 1]
    {
      if i > |c| {
        assert mc[i] == st[i - |c|].hash && mc[i - 1] == st[i - 1 - |c|].hash;
      } else if i == |c| {
        assert mc[i] == st[0].hash && mc[i - 1] == parent.hash;
      } else {
        assert mc[i] == c[i] && mc[i - 1] == c[i - 1];
      }
    }
  }

  lemma {:induction false} CommitLighterWF(s: ChainState, v: HeaderValidator, parent: HeaderInfo, batch: seq<BlockHeader>, st: seq<HeaderInfo>)
    requires WF(s, v)
    requires parent.hash in s.headers && s.headers[parent.hash] == parent
    requires |batch| > 0 && Novel(s.headers, batch)
    requires Stage(v, parent, batch) == Success(st)
    requires st[|st| - 1].work <= s.tip.work
    ensures WF(Commit(s, parent, st), v)
  {
    NewHeadersFacts(s, v, parent, batch, st);
    var m' := AddAll(s.headers, st);
    var s' := Commit(s, parent, st);
    assert s' == s.(headers := m');
    IsChainFrame(s.headers, m', s.mainChain, s.baseHeight);
    assert Structure(s');
    assert TipMaximal(s');
  }

  lemma {:induction false} CommitPreservesWF(s: ChainState, v: HeaderValidator, parent: HeaderInfo, batch: seq<BlockHeader>, st: seq<HeaderInfo>)
    requires WF(s, v)
    requires parent.hash in s.headers && s.headers[parent.hash] == parent
    requires |batch| > 0 && Novel(s.headers, batch)
    requires Stage(v, parent, batch) == Success(st)
    ensures WF(Commit(s, parent, st), v)
  {
    if st[|st| - 1].work > s.tip.work {
      CommitHeavierWF(s, v, parent, batch, st);
    } else {
      CommitLighterWF(s, v, parent, batch, st);
    }
  }

  /** A novel batch from an allowed reporter, attached to a stored parent and valid throughout, is committed. */
  lemma {:induction false} InsertAccepts(s: ChainState, reporters: set<Address>, v: HeaderValidator, signer: Address, batch: seq<BlockHeader>)
    requires Structure(s)
    requires IsReporterAllowed(reporters, signer)
    requires |batch| > 0 && Novel(s.headers, batch) && batch[0].prevBlock in s.headers
    requires Stage(v, s.headers[batch[0].prevBlock], batch).Success?
    ensures Insert(s, reporters, v, signer, batch)
              == Success(Commit(s, s.headers[batch[0].prevBlock], Stage(v, s.headers[batch[0].prevBlock], batch).value))
  {
  }

  /**
   * Work monotonicity, linkage and tip maximality survive every successful
   * insertion; tip maximality is part of well-formedness and is repeated on
   * its own as the headline promise.
   */
  lemma {:induction false} InsertPreservesWF(s: ChainState, reporters: set<Address>, v: HeaderValidator, signer: Address, batch: seq<BlockHeader>)
    requires WF(s, v)
    requires Insert(s, reporters, v, signer, batch).Success?
    ensures WF(Insert(s, reporters, v, signer, batch).value, v)
    ensures TipMaximal(Insert(s, reporters, v, signer, batch).value)
  {
    var parent := s.headers[batch[0].prevBlock];
    CommitPreservesWF(s, v, parent, batch, Stage(v, parent, batch).value);
  }

  /** A successful insertion changes no stored header and stores every header of the batch. */
  lemma {:induction false} InsertIsAppendOnly(s: ChainState, reporters: set<Address>, v: HeaderValidator, signer: Address, batch: seq<BlockHeader>)
    requires WF(s, v)
    requires Insert(s, reporters, v, signer, batch).Success?
    ensures var s' := Insert(s, reporters, v, signer, batch).value;
      && (forall h :: h in s.headers ==> h in s'.headers && s'.headers[h] == s.headers[h])
      && (forall j :: 0 <= j < |batch| ==> batch[j].hash in s'.headers && s'.headers[batch[j].hash].header == batch[j])
      && (forall h :: h in s'.headers ==> h in s.headers || exists j :: 0 <= j < |batch| && batch[j].hash == h)
  {
    var parent := s.headers[batch[0].prevBlock];
    var st := Stage(v, parent, batch).value;
    StageFacts(v, parent, batch);
    NewHeadersFacts(s, v, parent, batch, st);
    StagedAdded(s, v, parent, batch, st);
  }

  // ---------------------------------------------------------------------------
  // Tip extension and reorganisation

  /**
   * Extending the tip by a valid chain of length L succeeds; the new tip is
   * the batch's last header, L higher, with the batch's work added, and no
   * rollback is recorded.
   */
  lemma {:induction false} ExtendTip(s: ChainState, reporters: set<Address>, v: HeaderValidator, signer: Address, batch: seq<BlockHeader>)
    requires WF(s, v)
    requires IsReporterAllowed(reporters, signer)
    requires |batch| > 0 && batch[0].prevBlock == s.tip.hash
    requires Novel(s.headers, batch)
    requires Stage(v, s.tip, batch).Success?
    ensures Insert(s, reporters, v, signer, batch).Success?
    ensures var s' := Insert(s, reporters, v, signer, batch).value;
      && s'.tip.height == s.tip.height + |batch|
      && s'.tip.work == s.tip.work + SumWork(v, batch)
      && s'.tip.header == batch[|batch| - 1]
      && |s'.mainChain| == |s.mainChain| + |batch| && s'.mainChain[..|s.mainChain|] == s.mainChain
      && (forall j :: 0 <= j < |batch| ==> s'.mainChain[|s.mainChain| + j] == batch[j].hash)
      && s'.largestReorg == s.largestReorg
  {
    var n := |s.mainChain| - 1;
    assert s.tip.hash == s.mainChain[n];
    WalkOnMain(s, n);
    assert s.mainChain[..n + 1] == s.mainChain;
    var st := Stage(v, s.tip, batch).value;
    StageFacts(v, s.tip, batch);
    SumWorkPositive(v, batch);
    assert Insert(s, reporters, v, signer, batch) == Success(Commit(s, s.tip, st));
    CommitHeavierShape(s, s.tip, st);
    var mc := s.mainChain + Hashes(st);
    assert mc[..|s.mainChain|] == s.mainChain;
  }

  /**
   * A heavier branch attached at the canonical header of index `k` below the
   * tip becomes canonical: its last header is the tip, at the fork height plus
   * the batch length and with the fork's work plus the batch's, the canonical
   * index keeps the headers up to the fork, and the rollback from the old tip
   * to the fork is recorded when deeper than the recorded one.
   */
  lemma {:induction false} ReorgToHeavierFork(s: ChainState, reporters: set<Address>, v: HeaderValidator, signer: Address, batch: seq<BlockHeader>, k: nat)
    requires WF(s, v)
    requires IsReporterAllowed(reporters, signer)
    requires k + 1 < |s.mainChain|
    requires |batch| > 0 && batch[0].prevBlock == s.mainChain[k]
    requires Novel(s.headers, batch)
    requires Stage(v, s.headers[s.mainChain[k]], batch).Success?
    requires s.headers[s.mainChain[k]].work + SumWork(v, batch) > s.tip.work
    ensures Insert(s, reporters, v, signer, batch).Success?
    ensures var s' := Insert(s, reporters, v, signer, batch).value;
      var fork := s.headers[s.mainChain[k]];
      var rollback := BtcStaking.NewLargestBtcReOrg(s.tip, fork);
      && s.tip.height - fork.height == |s.mainChain| - 1 - k
      && s'.tip.height == fork.height + |batch|
      && s'.tip.work == fork.work + SumWork(v, batch)
      && s'.tip.header == batch[|batch| - 1]
      && |s'.mainChain| == k + 1 + |batch| && s'.mainChain[..k + 1] == s.mainChain[..k + 1]
      && (forall j :: 0 <= j < |batch| ==> s'.mainChain[k + 1 + j] == batch[j].hash)
      && s'.largestReorg == (if s.largestReorg.None? || s.largestReorg.value.blockDiff < rollback.blockDiff
                             then Some(rollback) else s.largestReorg)
      && (s.tip.height < BtcStaking.Uint32Modulus ==> rollback.blockDiff == |s.mainChain| - 1 - k)
  {
    var n := |s.mainChain| - 1;
    var fork := s.headers[s.mainChain[k]];
    WalkOnMain(s, k);
    assert fork.hash == s.mainChain[k];
    var st := Stage(v, fork, batch).value;
    StageFacts(v, fork, batch);
    assert s.tip == s.headers[s.mainChain[n]];
  }

  /**
   * A valid branch with no more work than the tip is stored, and the tip, the
   * canonical index and the rollback record stay as they were.
   */
  lemma {:induction false} LighterBranchKeepsTip(s: ChainState, reporters: set<Address>, v: HeaderValidator, signer: Address, batch: seq<BlockHeader>)
    requires WF(s, v)
    requires IsReporterAllowed(reporters, signer)
    requires |batch| > 0 && batch[0].prevBlock in s.headers
    requires Novel(s.headers, batch)
    requires Stage(v, s.headers[batch[0].prevBlock], batch).Success?
    requires s.headers[batch[0].prevBlock].work + SumWork(v, batch) <= s.tip.work
    ensures Insert(s, reporters, v, signer, batch).Success?
    ensures var s' := Insert(s, reporters, v, signer, batch).value;
      && s'.tip == s.tip && s'.mainChain == s.mainChain && s'.largestReorg == s.largestReorg
      && forall j :: 0 <= j < |batch| ==> batch[j].hash in s'.headers
  {
    var parent := s.headers[batch[0].prevBlock];
    var st := Stage(v, parent, batch).value;
    StageFacts(v, parent, batch);
    assert st[|st| - 1] == Predecessor(parent, st);
    assert Insert(s, reporters, v, signer, batch) == Success(Commit(s, parent, st));
    CommitLighterShape(s, parent, st);
    forall j | 0 <= j < |batch| ensures batch[j].hash in AddAll(s.headers, st) {
      AddAllHas(s.headers, st, j);
    }
  }

  /** The recorded rollback depth never decreases. */
  lemma {:induction false} LargestReorgNeverShrinks(s: ChainState, reporters: set<Address>, v: HeaderValidator, signer: Address, batch: seq<BlockHeader>)
    requires WF(s, v)
    requires Insert(s, reporters, v, signer, batch).Success?
    requires s.largestReorg.Some?
    ensures var s' := Insert(s, reporters, v, signer, batch).value;
      s'.largestReorg.Some? && s'.largestReorg.value.blockDiff >= s.largestReorg.value.blockDiff
  {
  }

  // ---------------------------------------------------------------------------
  // Rejections

  /** With a non-empty reporter list, a signer outside it is refused before anything else. */
  lemma {:induction false} UnlistedReporterRejected(s: ChainState, reporters: set<Address>, v: HeaderValidator, signer: Address, batch: seq<BlockHeader>)
    requires Structure(s)
    requires |reporters| > 0 && signer !in reporters
    ensures Insert(s, reporters, v, signer, batch) == Failure(UnauthorizedReporter)
  {
  }

  /**
   * Whoever is allowed to submit gets the same outcome as under the open
   * (empty) reporter list; in particular with the default empty list every
   * signer is treated alike.
   */
  lemma {:induction false} AllowedSignersAgree(s: ChainState, reporters: set<Address>, v: HeaderValidator, signer: Address, anyone: Address, batch: seq<BlockHeader>)
    requires Structure(s)
    requires IsReporterAllowed(reporters, signer)
    ensures Insert(s, reporters, v, signer, batch) == Insert(s, {}, v, anyone, batch)
    ensures Insert(s, reporters, v, signer, batch) != Failure(UnauthorizedReporter)
  {
  }

  /** A batch holding a header that is already stored is refused whole. */
  lemma {:induction false} KnownHeaderRejected(s: ChainState, reporters: set<Address>, v: HeaderValidator, signer: Address, batch: seq<BlockHeader>, j: nat)
    requires Structure(s)
    requires IsReporterAllowed(reporters, signer)
    requires j < |batch| && batch[j].hash in s.headers
    ensures Insert(s, reporters, v, signer, batch) == Failure(ForkStartWithKnownHeader)
  {
    assert !NovelAt(s.headers, batch, j);
  }

  /** Submitting an accepted batch a second time is refused as starting with a known header. */
  lemma {:induction false} ResubmissionRejected(s: ChainState, reporters: set<Address>, v: HeaderValidator, signer: Address, batch: seq<BlockHeader>)
    requires WF(s, v)
    requires Insert(s, reporters, v, signer, batch).Success?
    ensures WF(Insert(s, reporters, v, signer, batch).value, v)
    ensures Insert(Insert(s, reporters, v, signer, batch).value, reporters, v, signer, batch) == Failure(ForkStartWithKnownHeader)
  {
    var s' := Insert(s, reporters, v, signer, batch).value;
    InsertPreservesWF(s, reporters, v, signer, batch);
    InsertIsAppendOnly(s, reporters, v, signer, batch);
    KnownHeaderRejected(s', reporters, v, signer, batch, 0);
  }

  /**
   * The first header of an otherwise acceptable batch that does not name its
   * predecessor as parent, or that the validator rejects on top of it, makes
   * the whole batch fail at its position.
   */
  lemma {:induction false} InvalidHeaderRejected(s: ChainState, reporters: set<Address>, v: HeaderValidator, signer: Address, batch: seq<BlockHeader>, k: nat)
    requires Structure(s)
    requires IsReporterAllowed(reporters, signer)
    requires |batch| > 0 && Novel(s.headers, batch) && batch[0].prevBlock in s.headers
    requires k < |batch| && Stage(v, s.headers[batch[0].prevBlock], batch[..k]).Success?
    requires var prev := Predecessor(s.headers[batch[0].prevBlock], Stage(v, s.headers[batch[0].prevBlock], batch[..k]).value);
      batch[k].prevBlock != prev.hash || v.check(batch[k], prev).Some?
    ensures var prev := Predecessor(s.headers[batch[0].prevBlock], Stage(v, s.headers[batch[0].prevBlock], batch[..k]).value);
      Insert(s, reporters, v, signer, batch)
        == Failure(InvalidHeader(k, if batch[k].prevBlock != prev.hash then NotLinked else v.check(batch[k], prev).value))
  {
    var parent := s.headers[batch[0].prevBlock];
    assert batch[..k + 1][..k] == batch[..k];
    StageFailurePersists(v, parent, batch, k + 1);
  }

  /** A batch whose first header has no stored parent is refused, once it is novel. */
  lemma {:induction false} MissingParentRejected(s: ChainState, reporters: set<Address>, v: HeaderValidator, signer: Address, batch: seq<BlockHeader>)
    requires Structure(s)
    requires IsReporterAllowed(reporters, signer)
    requires |batch| > 0 && Novel(s.headers, batch) && batch[0].prevBlock !in s.headers
    ensures Insert(s, reporters, v, signer, batch) == Failure(ParentNotFound)
  {
  }
}
