/**
 * Bitcoin header records as the light client stores them.
 *
 * A block hash is a 256-bit digest of the header fields; the model only needs
 * its identity, so it is a natural number, and the header carries it as a field
 * computed outside the model (double SHA-256 is not modelled).
 */
module BtcTypes {
  import opened Wrappers

  type Hash = nat

  /** A bech32 account address of the ledger. */
  type Address = string

  datatype BlockHeader = BlockHeader(
    version: int,
    prevBlock: Hash,
    merkleRoot: Hash,
    timestamp: nat,
    bits: nat,
    nonce: nat,
    hash: Hash)

  /** A stored header with its height and the cumulative work of the chain ending in it. */
  datatype HeaderInfo = HeaderInfo(header: BlockHeader, hash: Hash, height: nat, work: nat)

  /**
   * Work of a single header: 2^256 / (target + 1), which is at least one for
   * every target the proof-of-work limit admits (0 < target < 2^256).
   */
  type Work = w: nat | 0 < w witness 1

  /**
   * The per-header proof-of-work, difficulty and timestamp rules, which live
   * outside the light client: `check` returns the reason a header is rejected
   * given its predecessor (None when it is accepted), and `work` is the work
   * its difficulty bits stand for.
   */
  datatype HeaderValidator = HeaderValidator(
    check: (BlockHeader, HeaderInfo) -> Option<string>,
    work: BlockHeader -> Work)
}
