/**
 * Helpers of the BTC staking module: finality-provider status, duplicate
 * detection among BIP-340 keys, ordering of covenant adaptor signatures, the
 * largest-reorg record and the commission bounds check.
 */
module BtcStaking {
  import opened Wrappers
  import opened BtcTypes

  /** A 32-byte x-only BIP-340 public key. */
  type BIP340PubKey = seq<bv8>

  // ---------------------------------------------------------------------------
  // Finality provider status

  datatype FinalityProvider = FinalityProvider(
    addr: string,
    btcPk: Option<BIP340PubKey>,
    slashedBabylonHeight: nat,
    slashedBtcHeight: nat,
    jailed: bool)
  {
    /** A provider is slashed once a positive ledger height of slashing is recorded. */
    function IsSlashed(): (slashed: bool)
      ensures slashed <==> slashedBabylonHeight > 0
    {
      slashedBabylonHeight > 0
    }

    /** Jailing is a flag of its own, independent of slashing. */
    function IsJailed(): (isJailed: bool)
      ensures isJailed <==> jailed
    {
      jailed
    }
  }

  // ---------------------------------------------------------------------------
  // Duplicate detection

  /** Two distinct positions of `pks` hold the same key. */
  ghost predicate HasDup(pks: seq<BIP340PubKey>) {
    exists i, j :: 0 <= i < j < |pks| && pks[i] == pks[j]
  }

  /** The keys occurring in `pks`. */
  ghost function Elements(pks: seq<BIP340PubKey>): set<BIP340PubKey>
    decreases |pks|
  {
    if |pks| == 0 then {} else Elements(pks[..|pks| - 1]) + {pks[|pks| - 1]}
  }

  /** Scans the keys once, remembering those already seen, and stops at the first repeat. */
  method ExistsDup(btcPKs: seq<BIP340PubKey>) returns (found: bool)
    ensures found <==> HasDup(btcPKs)
  {
    var seen: set<BIP340PubKey> := {};
    var i := 0;
    while i < |btcPKs|
      invariant 0 <= i <= |btcPKs|
      invariant seen == set k | 0 <= k < i :: btcPKs[k]
      invariant forall a, b :: 0 <= a < b < i ==> btcPKs[a] != btcPKs[b]
    {
      var pk := btcPKs[i];
      if pk in seen {
        var k :| 0 <= k < i && btcPKs[k] == pk;
        assert k < i && btcPKs[k] == btcPKs[i];
        return true;
      }
      seen := seen + {pk};
      i := i + 1;
    }
    return false;
  }

  lemma {:induction false} ElementsMembership(pks: seq<BIP340PubKey>, x: BIP340PubKey)
    ensures x in Elements(pks) <==> exists k :: 0 <= k < |pks| && pks[k] == x
    decreases |pks|
  {
    if |pks| > 0 {
      var pre := pks[..|pks| - 1];
      ElementsMembership(pre, x);
      if x in Elements(pre) {
        var k :| 0 <= k < |pre| && pre[k] == x;
        assert pks[k] == x;
      }
      if exists k :: 0 <= k < |pks| && pks[k] == x {
        var k :| 0 <= k < |pks| && pks[k] == x;
        if k < |pre| {
          assert pre[k] == x;
        }
      }
    }
  }

  /** A key list is free of duplicates exactly when it has as many distinct keys as entries. */
  lemma {:induction false} NoDupIffDistinctCount(pks: seq<BIP340PubKey>)
    ensures |Elements(pks)| <= |pks|
    ensures !HasDup(pks) <==> |Elements(pks)| == |pks|
    decreases |pks|
  {
    if |pks| > 0 {
      var n := |pks| - 1;
      var pre := pks[..n];
      var x := pks[n];
      NoDupIffDistinctCount(pre);
      ElementsMembership(pre, x);
      if HasDup(pre) {
        var i, j :| 0 <= i < j < |pre| && pre[i] == pre[j];
        assert pks[i] == pks[j];
      }
      if x in Elements(pre) {
        var k :| 0 <= k < |pre| && pre[k] == x;
        assert pks[k] == pks[n];
        assert Elements(pks) == Elements(pre);
      } else {
        assert |Elements(pks)| == |Elements(pre)| + 1;
        if !HasDup(pre) {
          forall i, j | 0 <= i < j < |pks|
            ensures pks[i] != pks[j]
          {
            assert pks[i] == pre[i];
            if j < n {
              assert pks[j] == pre[j];
            }
          }
        }
      }
    }
  }

  // ---------------------------------------------------------------------------
  // Ordering of covenant adaptor signatures

  /** A decoded Schnorr adaptor signature: the point R, the scalar s-hat and the negation flag. */
  datatype AdaptorSignature = AdaptorSignature(r: seq<bv8>, sHat: seq<bv8>, needNegation: bool)

  /**
   * One covenant member's adaptor signatures, one per finality provider the
   * delegation is restaked to, encoded as bytes.
   */
  datatype CovenantAdaptorSignatures = CovenantAdaptorSignatures(covPk: BIP340PubKey, adaptorSigs: seq<seq<bv8>>)

  datatype Params = Params(covenantPks: seq<BIP340PubKey>, covenantQuorum: nat)

  datatype CovSigError = FpIndexOutOfScope | DecodeFailed(reason: string)

  /** Decoding of adaptor signature bytes, which lives outside the staking module. */
  type AdaptorSigDecoder = seq<bv8> -> Result<AdaptorSignature, string>

  /** Why `entry` cannot give a signature for the provider at `fpIdx`, if it cannot. */
  function EntryFailure(fpIdx: nat, entry: CovenantAdaptorSignatures, decode: AdaptorSigDecoder): Option<CovSigError>
  {
    if fpIdx >= |entry.adaptorSigs| then Some(FpIndexOutOfScope)
    else match decode(entry.adaptorSigs[fpIdx])
      case Failure(reason) => Some(DecodeFailed(reason))
      case Success(_) => None
  }

  /** The signature `entry` gives for the provider at `fpIdx`, when it is there and decodes. */
  function SigOf(fpIdx: nat, entry: CovenantAdaptorSignatures, decode: AdaptorSigDecoder): Option<AdaptorSignature>
  {
    if fpIdx < |entry.adaptorSigs| && decode(entry.adaptorSigs[fpIdx]).Success?
    then Some(decode(entry.adaptorSigs[fpIdx]).value)
    else None
  }

  /**
   * The signature that the last entry submitted for `pk` gives for the provider
   * at `fpIdx`, or None when no entry is for `pk`.
   */
  function LatestSig(fpIdx: nat, covSigsList: seq<CovenantAdaptorSignatures>, decode: AdaptorSigDecoder, pk: BIP340PubKey): Option<AdaptorSignature>
    decreases |covSigsList|
  {
    if |covSigsList| == 0 then None
    else if covSigsList[|covSigsList| - 1].covPk == pk then SigOf(fpIdx, covSigsList[|covSigsList| - 1], decode)
    else LatestSig(fpIdx, covSigsList[..|covSigsList| - 1], decode, pk)
  }

  /** When every entry decodes, the latest entry for `pk` decides its signature. */
  lemma {:induction false} LatestSigIsLastEntry(fpIdx: nat, covSigsList: seq<CovenantAdaptorSignatures>, decode: AdaptorSigDecoder, pk: BIP340PubKey, i: nat)
    requires forall k :: 0 <= k < |covSigsList| ==> EntryFailure(fpIdx, covSigsList[k], decode).None?
    requires i < |covSigsList| && covSigsList[i].covPk == pk
    requires forall k :: i < k < |covSigsList| ==> covSigsList[k].covPk != pk
    ensures SigOf(fpIdx, covSigsList[i], decode).Some?
    ensures LatestSig(fpIdx, covSigsList, decode, pk) == SigOf(fpIdx, covSigsList[i], decode)
    decreases |covSigsList|
  {
    var n := |covSigsList| - 1;
    if i < n {
      var pre := covSigsList[..n];
      assert forall k :: 0 <= k < |pre| ==> pre[k] == covSigsList[k];
      LatestSigIsLastEntry(fpIdx, pre, decode, pk, i);
    }
  }

  /** A key nobody submitted gets no signature. */
  lemma {:induction false} LatestSigAbsent(fpIdx: nat, covSigsList: seq<CovenantAdaptorSignatures>, decode: AdaptorSigDecoder, pk: BIP340PubKey)
    requires forall k :: 0 <= k < |covSigsList| ==> covSigsList[k].covPk != pk
    ensures LatestSig(fpIdx, covSigsList, decode, pk) == None
    decreases |covSigsList|
  {
    if |covSigsList| > 0 {
      var pre := covSigsList[..|covSigsList| - 1];
      assert forall k :: 0 <= k < |pre| ==> pre[k] == covSigsList[k];
      LatestSigAbsent(fpIdx, pre, decode, pk);
    }
  }

  /**
   * Builds the map from covenant key to its decoded signature for the provider
   * at `fpIdx` (a later entry for the same key overwrites an earlier one), then
   * projects it onto the covenant keys in the order `sortPks` gives.
   */
  method GetOrderedCovenantSignatures(
    fpIdx: nat,
    covSigsList: seq<CovenantAdaptorSignatures>,
    params: Params,
    decode: AdaptorSigDecoder,
    sortPks: seq<BIP340PubKey> -> seq<BIP340PubKey>)
    returns (res: Result<seq<Option<AdaptorSignature>>, CovSigError>)
    requires multiset(sortPks(params.covenantPks)) == multiset(params.covenantPks)
    ensures res.Failure? <==> exists i :: 0 <= i < |covSigsList| && EntryFailure(fpIdx, covSigsList[i], decode).Some?
    ensures res.Failure? ==>
              exists i :: 0 <= i < |covSigsList| && EntryFailure(fpIdx, covSigsList[i], decode) == Some(res.error)
                          && forall k :: 0 <= k < i ==> EntryFailure(fpIdx, covSigsList[k], decode).None?
    ensures res.Success? ==> |res.value| == |sortPks(params.covenantPks)| == |params.covenantPks|
    ensures res.Success? ==>
              forall i :: 0 <= i < |res.value| ==>
                res.value[i] == LatestSig(fpIdx, covSigsList, decode, sortPks(params.covenantPks)[i])
  {
    var covSigsMap: map<BIP340PubKey, AdaptorSignature> := map[];
    var i := 0;
    while i < |covSigsList|
      invariant 0 <= i <= |covSigsList|
      invariant forall k :: 0 <= k < i ==> EntryFailure(fpIdx, covSigsList[k], decode).None?
      invariant forall pk :: pk in covSigsMap ==> LatestSig(fpIdx, covSigsList[..i], decode, pk) == Some(covSigsMap[pk])
      invariant forall pk :: pk !in covSigsMap ==> LatestSig(fpIdx, covSigsList[..i], decode, pk) == None
    {
      var covSigs := covSigsList[i];
      if fpIdx >= |covSigs.adaptorSigs| {
        return Failure(FpIndexOutOfScope);
      }
      var covSigBytes := covSigs.adaptorSigs[fpIdx];
      var covSig := decode(covSigBytes);
      if covSig.Failure? {
        return Failure(DecodeFailed(covSig.error));
      }
      assert covSigsList[..i + 1][..i] == covSigsList[..i];
      covSigsMap := covSigsMap[covSigs.covPk := covSig.value];
      i := i + 1;
    }
    assert covSigsList[..i] == covSigsList;

    var orderedCovenantPKs := sortPks(params.covenantPks);
    assert |orderedCovenantPKs| == |multiset(orderedCovenantPKs)| == |params.covenantPks|;
    var orderedCovSigs: seq<Option<AdaptorSignature>> := [];
    var j := 0;
    while j < |orderedCovenantPKs|
      invariant 0 <= j <= |orderedCovenantPKs|
      invariant |orderedCovSigs| == j
      invariant forall k :: 0 <= k < j ==> orderedCovSigs[k] == LatestSig(fpIdx, covSigsList, decode, orderedCovenantPKs[k])
    {
      var covPK := orderedCovenantPKs[j];
      if covPK in covSigsMap {
        orderedCovSigs := orderedCovSigs + [Some(covSigsMap[covPK])];
      } else {
        orderedCovSigs := orderedCovSigs + [None];
      }
      j := j + 1;
    }
    return Success(orderedCovSigs);
  }

  // ---------------------------------------------------------------------------
  // Largest BTC reorg record

  const Uint32Modulus: int := 0x1_0000_0000

  /**
   * The deepest rollback of the BTC light client seen so far: the tip before
   * it, the header it rolled back to, and the difference of their heights as
   * a uint32.
   */
  datatype LargestBtcReOrg = LargestBtcReOrg(blockDiff: nat, rollbackFrom: Option<HeaderInfo>, rollbackTo: Option<HeaderInfo>)
  {
    function Validate(validateInfo: HeaderInfo -> Option<string>): (r: Outcome<ReOrgError>)
      ensures r.Pass? <==>
                && rollbackFrom.Some? && rollbackTo.Some?
                && validateInfo(rollbackFrom.value).None? && validateInfo(rollbackTo.value).None?
                && rollbackTo.value.height < rollbackFrom.value.height
      ensures rollbackFrom.None? ==> r == Fail(RollbackFromNil)
      ensures rollbackFrom.Some? && rollbackTo.None? ==> r == Fail(RollbackToNil)
      ensures rollbackFrom.Some? && rollbackTo.Some? && validateInfo(rollbackFrom.value).Some? ==>
                r == Fail(InvalidRollbackFrom(validateInfo(rollbackFrom.value).value))
      ensures rollbackFrom.Some? && rollbackTo.Some? && validateInfo(rollbackFrom.value).None?
              && validateInfo(rollbackTo.value).Some? ==>
                r == Fail(InvalidRollbackTo(validateInfo(rollbackTo.value).value))
      ensures rollbackFrom.Some? && rollbackTo.Some? && validateInfo(rollbackFrom.value).None?
              && validateInfo(rollbackTo.value).None? && rollbackFrom.value.height <= rollbackTo.value.height ==>
                r == Fail(NotARollback(rollbackFrom.value.height, rollbackTo.value.height))
    {
      if rollbackFrom.None? then Fail(RollbackFromNil)
      else if rollbackTo.None? then Fail(RollbackToNil)
      else if validateInfo(rollbackFrom.value).Some? then Fail(InvalidRollbackFrom(validateInfo(rollbackFrom.value).value))
      else if validateInfo(rollbackTo.value).Some? then Fail(InvalidRollbackTo(validateInfo(rollbackTo.value).value))
      else if rollbackFrom.value.height <= rollbackTo.value.height then
        Fail(NotARollback(rollbackFrom.value.height, rollbackTo.value.height))
      else Pass
    }
  }

  datatype ReOrgError =
    | RollbackFromNil
    | RollbackToNil
    | InvalidRollbackFrom(reason: string)
    | InvalidRollbackTo(reason: string)
    | NotARollback(fromHeight: nat, toHeight: nat)

  /** Heights are uint32, so the difference is taken modulo 2^32 as Go's unsigned subtraction does. */
  function NewLargestBtcReOrg(rollbackFrom: HeaderInfo, rollbackTo: HeaderInfo): (r: LargestBtcReOrg)
    ensures r.rollbackFrom == Some(rollbackFrom) && r.rollbackTo == Some(rollbackTo)
    ensures r.blockDiff < Uint32Modulus
    ensures rollbackTo.height <= rollbackFrom.height < Uint32Modulus ==>
              r.blockDiff == rollbackFrom.height - rollbackTo.height
    ensures rollbackFrom.height < rollbackTo.height < Uint32Modulus ==>
              r.blockDiff == Uint32Modulus - (rollbackTo.height - rollbackFrom.height)
  {
    LargestBtcReOrg((rollbackFrom.height - rollbackTo.height) % Uint32Modulus, Some(rollbackFrom), Some(rollbackTo))
  }

  /** A record built from two uint32-height headers that validates has a positive, unwrapped difference. */
  lemma {:induction false} ValidatedReOrgHasPositiveDiff(rollbackFrom: HeaderInfo, rollbackTo: HeaderInfo, validateInfo: HeaderInfo -> Option<string>)
    requires rollbackFrom.height < Uint32Modulus && rollbackTo.height < Uint32Modulus
    requires NewLargestBtcReOrg(rollbackFrom, rollbackTo).Validate(validateInfo).Pass?
    ensures NewLargestBtcReOrg(rollbackFrom, rollbackTo).blockDiff == rollbackFrom.height - rollbackTo.height >= 1
  {
  }

  // ---------------------------------------------------------------------------
  // Commission bounds

  /** math.LegacyDec values carry 18 decimal places; a rate r is the integer r * 10^18. */
  const LegacyOneDec: int := 1_000_000_000_000_000_000

  datatype CommissionError =
    | CommissionNegative
    | CommissionHuge
    | CommissionChangeRateNegative
    | CommissionChangeRateGTMaxRate

  datatype CommissionInfo = CommissionInfo(maxRate: int, maxChangeRate: int)
  {
    /** The checks run in a fixed order and the first violated one names the error. */
    function Validate(): (r: Outcome<CommissionError>)
      ensures r.Pass? <==> 0 <= maxChangeRate <= maxRate <= LegacyOneDec
      ensures maxRate < 0 ==> r == Fail(CommissionNegative)
      ensures 0 <= maxRate && maxRate > LegacyOneDec ==> r == Fail(CommissionHuge)
      ensures 0 <= maxRate <= LegacyOneDec && maxChangeRate < 0 ==> r == Fail(CommissionChangeRateNegative)
      ensures 0 <= maxRate <= LegacyOneDec && 0 <= maxChangeRate && maxChangeRate > maxRate ==>
                r == Fail(CommissionChangeRateGTMaxRate)
    {
      if maxRate < 0 then Fail(CommissionNegative)
      else if maxRate > LegacyOneDec then Fail(CommissionHuge)
      else if maxChangeRate < 0 then Fail(CommissionChangeRateNegative)
      else if maxChangeRate > maxRate then Fail(CommissionChangeRateGTMaxRate)
      else Pass
    }
  }
}
