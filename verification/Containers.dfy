/** The records that the client passes around: checkpoints, votes, blocks and the
    chain state, together with the outcome type that separates an error return from
    an assertion failure. */
module Containers {

  /** A 32-byte hash read as a big-endian number, so that `<` is the byte order used
      to sort roots and to break ties. */
  type Root = nat

  const ZERO_ROOT: Root := 0

  /** The hash of something. No SSZ container hashes to the zero root. */
  type Digest = r: Root | r != ZERO_ROOT witness 1

  type Slot = nat

  type ValidatorId = nat

  datatype Checkpoint = Checkpoint(root: Root, slot: Slot)

  datatype AttestationData = AttestationData(
    slot: Slot, head: Checkpoint, target: Checkpoint, source: Checkpoint)

  datatype Attestation = Attestation(validatorId: ValidatorId, data: AttestationData)

  /** One vote shared by every validator whose bit is set. */
  datatype AggregatedAttestation = AggregatedAttestation(bits: seq<bool>, data: AttestationData)

  datatype BlockHeader = BlockHeader(
    slot: Slot, proposerIndex: ValidatorId, parentRoot: Root, stateRoot: Root, bodyRoot: Root)

  datatype Block = Block(
    slot: Slot, proposerIndex: ValidatorId, parentRoot: Root, stateRoot: Root,
    body: seq<AggregatedAttestation>)

  /** The consensus state. `window` is the bit list of justified slots that follow the
      finalized slot; `tallyRoots` and `tallyBits` are the pending vote tallies,
      flattened into one row of `validators` bits per root. */
  datatype State = State(
    genesisTime: nat,
    slot: Slot,
    header: BlockHeader,
    justified: Checkpoint,
    finalized: Checkpoint,
    history: seq<Root>,
    window: seq<bool>,
    validators: nat,
    tallyRoots: seq<Root>,
    tallyBits: seq<bool>)

  /** Hash tree roots. The hash function itself is a parameter of the model. */
  datatype Hasher = Hasher(
    header: BlockHeader -> Digest,
    body: seq<AggregatedAttestation> -> Digest,
    state: State -> Digest,
    data: AttestationData -> Digest)

  /** The header whose fields merkleize to the same tree as the block itself. */
  function HeaderOf(h: Hasher, b: Block): BlockHeader {
    BlockHeader(b.slot, b.proposerIndex, b.parentRoot, b.stateRoot, h.body(b.body))
  }

  function BlockRoot(h: Hasher, b: Block): Digest {
    h.header(HeaderOf(h, b))
  }

  /** The ways in which an operation returns `Err`. */
  datatype Error =
    | SlotNotInFuture | SlotMismatch | OlderThanHeader | WrongProposer | ParentRootMismatch
    | DuplicateData | ZeroTallyRoot | OutsideWindow | OutsideHistory | ValidatorOutOfRange
    | TallyWithoutSlot | StateRootMismatch
    | UnknownSource | UnknownTarget | UnknownHead | SourceAfterTarget
    | SourceSlotMismatch | TargetSlotMismatch | FutureVote
    | ParentNotAvailable | NoParentState | UnknownValidatorKey | AggregationFailed | HeadStateNotFound

  /** The ways in which an operation panics. */
  datatype Fault =
    | BeforeFinalized | NoParticipants | IndexLimit | TallyOutOfBounds | ShiftOutOfBounds
    | DivisionByZero | MissingBlock

  datatype Outcome<+T> = Ok(value: T) | Err(error: Error) | Panic(fault: Fault) {
    predicate IsFailure() { !Ok? }

    function PropagateFailure<U>(): Outcome<U>
      requires IsFailure()
    {
      match this
      case Err(e) => Err(e)
      case Panic(f) => Panic(f)
    }

    function Extract(): T
      requires Ok?
    {
      value
    }
  }
}
