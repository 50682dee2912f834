/**
 * The BTC light client's header store as a value, and the reference behaviour
 * of inserting a batch of headers into it: reporter check, novelty of the
 * batch, attachment to a stored parent, per-header validation with
 * incremental height and work, the most-work fork choice, and the bookkeeping
 * of the largest rollback.
 */
module HeaderChain {
  import opened Wrappers
  import opened BtcTypes
  import BtcStaking

  datatype InsertError =
    | UnauthorizedReporter
    | EmptyHeaders
    | ForkStartWithKnownHeader
    | ParentNotFound
    | InvalidHeader(position: nat, reason: string)

  /** The reason given when a header does not name its predecessor as parent. */
  const NotLinked: string := "header does not extend its predecessor"

  /**
   * `headers` holds every header ever accepted, keyed by hash; `mainChain[i]`
   * is the hash of the canonical header at height `baseHeight + i`; `tip` is
   * the canonical header with the most work.
   */
  datatype ChainState = ChainState(
    headers: map<Hash, HeaderInfo>,
    mainChain: seq<Hash>,
    tip: HeaderInfo,
    baseHeight: nat,
    largestReorg: Option<BtcStaking.LargestBtcReOrg>)

  /** An empty reporter list leaves submission open to everyone. */
  predicate IsReporterAllowed(reporters: set<Address>, signer: Address) {
    |reporters| == 0 || signer in reporters
  }

  // ---------------------------------------------------------------------------
  // Well-formed stores

  ghost predicate KeysMatch(headers: map<Hash, HeaderInfo>, base: nat) {
    forall h :: h in headers ==> headers[h].hash == h && headers[h].header.hash == h && base <= headers[h].height
  }

  /** Header `h`, when stored above the base, has its parent stored one height below. */
  ghost predicate HasParent(headers: map<Hash, HeaderInfo>, base: nat, h: Hash) {
    h in headers && base < headers[h].height ==>
      headers[h].header.prevBlock in headers && headers[h].height == headers[headers[h].header.prevBlock].height + 1
  }

  ghost predicate ParentsStored(headers: map<Hash, HeaderInfo>, base: nat) {
    forall h :: HasParent(headers, base, h)
  }

  /** `info` is the header accepted on top of `prev`, with the height and work that gives it. */
  ghost predicate LinksTo(v: HeaderValidator, info: HeaderInfo, prev: HeaderInfo) {
    && info.header.prevBlock == prev.hash
    && info.height == prev.height + 1
    && v.check(info.header, prev).None?
    && info.work == prev.work + v.work(info.header)
  }

  /** Header `h`, when stored above the base with its parent, was accepted on top of that parent. */
  ghost predicate WorkLinked(headers: map<Hash, HeaderInfo>, v: HeaderValidator, base: nat, h: Hash) {
    h in headers && base < headers[h].height && headers[h].header.prevBlock in headers ==>
      LinksTo(v, headers[h], headers[headers[h].header.prevBlock])
  }

  /** Work monotonicity: a header's cumulative work is its parent's plus its own. */
  ghost predicate WorkConsistent(headers: map<Hash, HeaderInfo>, v: HeaderValidator, base: nat) {
    forall h :: WorkLinked(headers, v, base, h)
  }

  /** `c` lists stored headers of consecutive heights from `start`, each the parent of the next. */
  ghost predicate IsChain(headers: map<Hash, HeaderInfo>, c: seq<Hash>, start: nat) {
    && (forall i :: 0 <= i < |c| ==> c[i] in headers && headers[c[i]].height == start + i)
    && (forall i, j :: 0 <= i && j == i + 1 && j < |c| ==> headers[c[j]].header.prevBlock == c[i])
  }

  ghost predicate Structure(s: ChainState) {
    && KeysMatch(s.headers, s.baseHeight)
    && ParentsStored(s.headers, s.baseHeight)
    && |s.mainChain| > 0
    && IsChain(s.headers, s.mainChain, s.baseHeight)
    && (forall h :: h in s.headers && s.headers[h].height == s.baseHeight ==> h == s.mainChain[0])
    && s.headers[s.mainChain[|s.mainChain| - 1]] == s.tip
  }

  /** Tip maximality: no stored header has more work than the tip. */
  ghost predicate TipMaximal(s: ChainState) {
    forall h :: h in s.headers ==> s.headers[h].work <= s.tip.work
  }

  /** A recorded rollback goes from a higher header down to a lower one. */
  ghost predicate ReorgRecordOk(r: Option<BtcStaking.LargestBtcReOrg>) {
    r.Some? ==>
      && r.value.rollbackFrom.Some? && r.value.rollbackTo.Some?
      && r.value.rollbackTo.value.height < r.value.rollbackFrom.value.height
      && r.value == BtcStaking.NewLargestBtcReOrg(r.value.rollbackFrom.value, r.value.rollbackTo.value)
  }

  ghost predicate WF(s: ChainState, v: HeaderValidator) {
    && Structure(s)
    && WorkConsistent(s.headers, v, s.baseHeight)
    && TipMaximal(s)
    && ReorgRecordOk(s.largestReorg)
  }

  /** The store holding only the base header the light client starts from. */
  function Genesis(base: BlockHeader, height: nat, work: nat): (s: ChainState)
    ensures forall v :: WF(s, v)
    ensures s.tip.height == height && s.tip.work == work && s.tip.header == base
  {
    var info := HeaderInfo(base, base.hash, height, work);
    ChainState(map[base.hash := info], [base.hash], info, height, None)
  }

  // ---------------------------------------------------------------------------
  // Ancestry

  predicate OnMainChain(s: ChainState, h: Hash)
    requires h in s.headers
  {
    var i := s.headers[h].height - s.baseHeight;
    0 <= i < |s.mainChain| && s.mainChain[i] == h
  }

  lemma {:induction false} OffMainHasParent(s: ChainState, h: Hash)
    requires Structure(s) && h in s.headers && !OnMainChain(s, h)
    ensures s.headers[h].header.prevBlock in s.headers
    ensures s.headers[h].height == s.headers[s.headers[h].header.prevBlock].height + 1
  {
    assert s.headers[s.mainChain[0]].height == s.baseHeight;
    assert HasParent(s.headers, s.baseHeight, h);
  }

  /**
   * The first canonical header met walking back from `h` by parent hashes
   * (the fork point of its branch). In a well-formed store every step of the
   * walk finds the parent one height below; the walk stops early otherwise.
   */
  function ForkPoint(s: ChainState, h: Hash): HeaderInfo
    requires h in s.headers
    decreases s.headers[h].height
  {
    var p := s.headers[h].header.prevBlock;
    if OnMainChain(s, h) || p !in s.headers || s.headers[h].height <= s.headers[p].height then s.headers[h]
    else ForkPoint(s, p)
  }

  /** The hashes from the base up to `h`: the canonical prefix below the fork point, then `h`'s branch. */
  function ChainTo(s: ChainState, h: Hash): seq<Hash>
    requires h in s.headers
    decreases s.headers[h].height
  {
    var p := s.headers[h].header.prevBlock;
    if OnMainChain(s, h) then s.mainChain[..s.headers[h].height - s.baseHeight + 1]
    else if p !in s.headers || s.headers[h].height <= s.headers[p].height then [h]
    else ChainTo(s, p) + [h]
  }

  /** The ancestor of `h` at `height`, found by following parent hashes only. */
  function AncestorAt(headers: map<Hash, HeaderInfo>, base: nat, h: Hash, height: nat): Hash
    requires ParentsStored(headers, base) && h in headers && base <= height
    decreases headers[h].height
  {
    if headers[h].height <= height then h
    else assert HasParent(headers, base, h); AncestorAt(headers, base, headers[h].header.prevBlock, height)
  }

  // ---------------------------------------------------------------------------
  // Insertion

  /** Header `k` of the batch is neither stored nor a repeat of an earlier header of the batch. */
  predicate NovelAt(headers: map<Hash, HeaderInfo>, batch: seq<BlockHeader>, k: nat)
    requires k < |batch|
  {
    batch[k].hash !in headers && forall j :: 0 <= j < k ==> batch[j].hash != batch[k].hash
  }

  predicate Novel(headers: map<Hash, HeaderInfo>, batch: seq<BlockHeader>) {
    forall k :: 0 <= k < |batch| ==> NovelAt(headers, batch, k)
  }

  /** Accepts header `h`, at `position` in the batch, on top of `prev`. */
  function ExtendBy(v: HeaderValidator, prev: HeaderInfo, h: BlockHeader, position: nat): Result<HeaderInfo, InsertError>
  {
    if h.prevBlock != prev.hash then Failure(InvalidHeader(position, NotLinked))
    else match v.check(h, prev)
      case Some(reason) => Failure(InvalidHeader(position, reason))
      case None => Success(HeaderInfo(h, h.hash, prev.height + 1, prev.work + v.work(h)))
  }

  function Predecessor(parent: HeaderInfo, staged: seq<HeaderInfo>): HeaderInfo {
    if |staged| == 0 then parent else staged[|staged| - 1]
  }

  /** Validates the batch header by header from `parent`, stopping at the first rejected one. */
  function Stage(v: HeaderValidator, parent: HeaderInfo, batch: seq<BlockHeader>): (r: Result<seq<HeaderInfo>, InsertError>)
    ensures r.Success? ==> |r.value| == |batch|
    ensures r.Failure? ==> r.error.InvalidHeader? && r.error.position < |batch|
    decreases |batch|
  {
    if |batch| == 0 then Success([])
    else match Stage(v, parent, batch[..|batch| - 1])
      case Failure(e) => Failure(e)
      case Success(staged) =>
        match ExtendBy(v, Predecessor(parent, staged), batch[|batch| - 1], |batch| - 1)
        case Failure(e) => Failure(e)
        case Success(info) => Success(staged + [info])
  }

  /** The work the batch's headers stand for. */
  function SumWork(v: HeaderValidator, batch: seq<BlockHeader>): nat
    decreases |batch|
  {
    if |batch| == 0 then 0 else SumWork(v, batch[..|batch| - 1]) + v.work(batch[|batch| - 1])
  }

  function AddAll(headers: map<Hash, HeaderInfo>, staged: seq<HeaderInfo>): map<Hash, HeaderInfo>
    decreases |staged|
  {
    if |staged| == 0 then headers
    else AddAll(headers, staged[..|staged| - 1])[staged[|staged| - 1].hash := staged[|staged| - 1]]
  }

  function Hashes(staged: seq<HeaderInfo>): (r: seq<Hash>)
    ensures |r| == |staged| && forall j :: 0 <= j < |staged| ==> r[j] == staged[j].hash
  {
    seq(|staged|, j requires 0 <= j < |staged| => staged[j].hash)
  }

  /**
   * Records the rollback from `oldTip` down to `fork` when it is strictly
   * deeper than the recorded one.
   */
  function TrackReorg(current: Option<BtcStaking.LargestBtcReOrg>, oldTip: HeaderInfo, fork: HeaderInfo): Option<BtcStaking.LargestBtcReOrg>
  {
    if fork.height < oldTip.height then
      var candidate := BtcStaking.NewLargestBtcReOrg(oldTip, fork);
      if current.None? || current.value.blockDiff < candidate.blockDiff then Some(candidate) else current
    else current
  }

  /**
   * Stores the staged headers; the branch they end becomes canonical only
   * when its last header has strictly more work than the tip.
   */
  function Commit(s: ChainState, parent: HeaderInfo, staged: seq<HeaderInfo>): ChainState
    requires Structure(s) && parent.hash in s.headers && |staged| > 0
  {
    var last := staged[|staged| - 1];
    if last.work > s.tip.work then
      s.(headers := AddAll(s.headers, staged),
         mainChain := ChainTo(s, parent.hash) + Hashes(staged),
         tip := last,
         largestReorg := TrackReorg(s.largestReorg, s.tip, ForkPoint(s, parent.hash)))
    else
      s.(headers := AddAll(s.headers, staged))
  }

  /**
   * Inserting a batch signed by `signer`: the reporter check, then a non-empty
   * batch of new headers, then a stored parent for the first header, then
   * every header valid on top of the one before; the first failing check
   * names the error and an accepted batch is committed.
   */
  function Insert(s: ChainState, reporters: set<Address>, v: HeaderValidator, signer: Address, batch: seq<BlockHeader>): Result<ChainState, InsertError>
    requires Structure(s)
  {
    if !IsReporterAllowed(reporters, signer) then Failure(UnauthorizedReporter)
    else if |batch| == 0 then Failure(EmptyHeaders)
    else if !Novel(s.headers, batch) then Failure(ForkStartWithKnownHeader)
    else if batch[0].prevBlock !in s.headers then Failure(ParentNotFound)
    else
      var parent := s.headers[batch[0].prevBlock];
      match Stage(v, parent, batch)
      case Failure(e) => Failure(e)
      case Success(staged) => Success(Commit(s, parent, staged))
  }
}
