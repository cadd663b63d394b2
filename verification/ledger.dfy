/** The read-only view of the bead contract that the handler queries. Each
    contract function becomes a pure read of one ledger snapshot; a call can
    fail (an unreachable node, a node error, an undecodable reply), and which
    calls fail is part of the snapshot, so that every failure the handler can
    meet is an input of the model. */
module Ledger {

  /** What `beads(string)` returns for a bead. */
  datatype BeadRecord = BeadRecord(
    id: string,
    sku: string,
    createdAt: nat,
    validated: bool,
    isValid: bool,
    currentVersion: nat,
    lastUpdate: nat,
    genesisCID: string)

  /** What `getBeadMetadata(string)` returns for a bead. */
  datatype BeadMetadata = BeadMetadata(
    currentVersion: nat,
    validated: bool,
    isValid: bool,
    lastUpdate: nat,
    genesisCID: string)

  /** Everything the contract stores about one bead that the handler reads:
      the two views, the token id (`beadToToken`) and the transfer count
      (`getTransferCount`). The contract keeps the two views consistent;
      nothing here relies on that. */
  datatype Entry = Entry(
    record: BeadRecord,
    metadata: BeadMetadata,
    tokenId: nat,
    transferCount: nat)

  /** The contract functions the handler calls, one constructor per
      function. */
  datatype Call = Exists | Beads | GetBeadMetadata | BeadToToken | GetTransferCount

  /** A ledger snapshot: the beads that exist, and for each contract function
      that fails, the message of the error its call raises. */
  datatype State = State(beads: map<string, Entry>, faults: map<Call, string>)

  /** The settled value of one awaited contract call. */
  datatype Reply<+T> = Returned(value: T) | Failed(message: string)

  /** `exists(id)`. */
  function CallExists(st: State, id: string): Reply<bool> {
    if Exists in st.faults then Failed(st.faults[Exists]) else Returned(id in st.beads)
  }

  /** `beads(id)` for a bead that exists. */
  function CallBeads(st: State, id: string): Reply<BeadRecord>
    requires id in st.beads
  {
    if Beads in st.faults then Failed(st.faults[Beads]) else Returned(st.beads[id].record)
  }

  /** `getBeadMetadata(id)` for a bead that exists. */
  function CallGetBeadMetadata(st: State, id: string): Reply<BeadMetadata>
    requires id in st.beads
  {
    if GetBeadMetadata in st.faults then Failed(st.faults[GetBeadMetadata])
    else Returned(st.beads[id].metadata)
  }

  /** `beadToToken(id)` for a bead that exists. */
  function CallBeadToToken(st: State, id: string): Reply<nat>
    requires id in st.beads
  {
    if BeadToToken in st.faults then Failed(st.faults[BeadToToken]) else Returned(st.beads[id].tokenId)
  }

  /** `getTransferCount(id)` for a bead that exists. */
  function CallGetTransferCount(st: State, id: string): Reply<nat>
    requires id in st.beads
  {
    if GetTransferCount in st.faults then Failed(st.faults[GetTransferCount])
    else Returned(st.beads[id].transferCount)
  }
}
