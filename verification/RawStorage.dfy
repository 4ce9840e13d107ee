/**
 The dynamic parameters of the system: base values set by updates, and the values derived
 from them.
 */
module RawStorages {

  datatype Params = Params(
    maxBytes: nat, maxProposalSize: nat,
    proposalStepTimeout: nat, preVoteStepTimeout: nat, preCommitStepTimeout: nat,
    deadBlockRoundNextRoundTimeout: nat, downloadTimeout: nat,
    srvrMsgTimeout: nat, msgTimeout: nat,
    minTxFee: nat, txValidVersion: nat,
    valueStoreFee: nat, valueStoreValidVersion: nat,
    atomicSwapFee: nat, atomicSwapValidStopEpoch: nat,
    dataStoreEpochFee: nat, dataStoreValidVersion: nat)

  /** An update by type and parsed value; Unusable stands for an unknown type or a value that does not parse. */
  datatype Change =
    | MaxBytes(n: nat)
    | ProposalStepTimeout(t: nat) | PreVoteStepTimeout(t: nat) | PreCommitStepTimeout(t: nat) | MsgTimeout(t: nat)
    | MinTxFee(fee: nat) | ValueStoreFee(fee: nat) | AtomicSwapFee(fee: nat) | DataStoreEpochFee(fee: nat)
    | TxValidVersion(n: nat) | ValueStoreValidVersion(n: nat) | DataStoreValidVersion(n: nat)
    | AtomicSwapValidStopEpoch(n: nat)
    | Unusable

  const SECOND := 1000000000

  /** standardParameters, durations in nanoseconds */
  function Standard(): Params {
    Params(3000000, 3000000, 4 * SECOND, 3 * SECOND, 3 * SECOND, 25 * SECOND, 10 * SECOND, 3 * SECOND, 4 * SECOND,
           0, 0, 0, 0, 0, 0, 0, 0)
  }

  /** The base value an update names, and nothing else. */
  function SetBase(p: Params, c: Change): Params {
    match c
    case MaxBytes(n) => p.(maxBytes := n)
    case ProposalStepTimeout(t) => p.(proposalStepTimeout := t)
    case PreVoteStepTimeout(t) => p.(preVoteStepTimeout := t)
    case PreCommitStepTimeout(t) => p.(preCommitStepTimeout := t)
    case MsgTimeout(t) => p.(msgTimeout := t)
    case MinTxFee(fee) => p.(minTxFee := fee)
    case ValueStoreFee(fee) => p.(valueStoreFee := fee)
    case AtomicSwapFee(fee) => p.(atomicSwapFee := fee)
    case DataStoreEpochFee(fee) => p.(dataStoreEpochFee := fee)
    case TxValidVersion(n) => p.(txValidVersion := n)
    case ValueStoreValidVersion(n) => p.(valueStoreValidVersion := n)
    case DataStoreValidVersion(n) => p.(dataStoreValidVersion := n)
    case AtomicSwapValidStopEpoch(n) => p.(atomicSwapValidStopEpoch := n)
    case Unusable => p
  }

  /** Every derived value computed anew from the base values. */
  function Derive(p: Params): Params {
    var sum := p.proposalStepTimeout + p.preVoteStepTimeout + p.preCommitStepTimeout;
    p.(maxProposalSize := p.maxBytes,
       srvrMsgTimeout := (3 * p.msgTimeout) / 4,
       downloadTimeout := sum,
       deadBlockRoundNextRoundTimeout := (5 * sum) / 2)
  }

  /** What an update means. */
  function Updated(p: Params, c: Change): Params {
    Derive(SetBase(p, c))
  }

  class RawStorage {
    var p: Params

    ghost predicate Valid()
      reads this
    {
      p == Derive(p)
    }

    constructor (p: Params)
      requires p == Derive(p)
      ensures Valid() && this.p == p
    {
      this.p := p;
    }

    method SetMaxBytes(value: nat)
      requires Valid()
      modifies this
      ensures Valid() && p == Updated(old(p), MaxBytes(value))
    {
      p := p.(maxBytes := value);
      p := p.(maxProposalSize := value);
    }

    method SetMsgTimeout(value: nat)
      requires Valid()
      modifies this
      ensures Valid() && p == Updated(old(p), MsgTimeout(value))
    {
      p := p.(msgTimeout := value);
      p := p.(srvrMsgTimeout := (3 * value) / 4);
    }

    /** The common tail of the three step-timeout setters. */
    method DeriveTimeouts()
      modifies this
      ensures var sum := old(p).proposalStepTimeout + old(p).preVoteStepTimeout + old(p).preCommitStepTimeout;
              p == old(p).(downloadTimeout := sum, deadBlockRoundNextRoundTimeout := (5 * sum) / 2)
    {
      var sum := p.proposalStepTimeout + p.preVoteStepTimeout + p.preCommitStepTimeout;
      p := p.(downloadTimeout := sum);
      p := p.(deadBlockRoundNextRoundTimeout := (5 * sum) / 2);
    }

    /** UpdateValue: the setters keep the derived values up to date, each recomputing only its own. */
    method UpdateValue(c: Change) returns (ok: bool)
      requires Valid()
      modifies this
      ensures Valid() && p == Updated(old(p), c)
      ensures ok <==> c != Unusable
      ensures !ok ==> p == old(p)
    {
      ok := true;
      match c
      case MaxBytes(n) => SetMaxBytes(n);
      case ProposalStepTimeout(t) =>
        p := p.(proposalStepTimeout := t);
        DeriveTimeouts();
      case PreVoteStepTimeout(t) =>
        p := p.(preVoteStepTimeout := t);
        DeriveTimeouts();
      case PreCommitStepTimeout(t) =>
        p := p.(preCommitStepTimeout := t);
        DeriveTimeouts();
      case MsgTimeout(t) => SetMsgTimeout(t);
      case MinTxFee(fee) => p := p.(minTxFee := fee);
      case ValueStoreFee(fee) => p := p.(valueStoreFee := fee);
      case AtomicSwapFee(fee) => p := p.(atomicSwapFee := fee);
      case DataStoreEpochFee(fee) => p := p.(dataStoreEpochFee := fee);
      case TxValidVersion(n) => p := p.(txValidVersion := n);
      case ValueStoreValidVersion(n) => p := p.(valueStoreValidVersion := n);
      case DataStoreValidVersion(n) => p := p.(dataStoreValidVersion := n);
      case AtomicSwapValidStopEpoch(n) => p := p.(atomicSwapValidStopEpoch := n);
      case Unusable => ok := false;
    }
  }
}
