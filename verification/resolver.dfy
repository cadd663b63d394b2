/** The bead-resolution pipeline of the `GET /:beadId` handler: format check,
    configuration check, existence check, the four reads, and assembly of the
    response object, stopping at the first failure. */
module Resolver {
  import opened Wrappers
  import BeadIds
  import IsoTime
  import opened Ledger

  /** The network name every successful response reports. */
  const Network: string := "sepolia"

  /** Process-wide configuration: the contract address, when one is set. */
  datatype Config = Config(contractAddress: Option<string>)

  /** The response object of a successful resolution. `previousVersion` is a
      field that is either present with a number or absent altogether. */
  datatype ResolvedBead = ResolvedBead(
    beadId: string,
    sku: string,
    version: nat,
    genesisCID: string,
    tokenId: nat,
    validated: bool,
    isValid: bool,
    transfers: nat,
    createdAt: string,
    lastUpdate: string,
    blockchainVerified: bool,
    network: string,
    contractAddress: string,
    previousVersion: Option<nat>)

  /** How a resolution ends: a response object, or one of the four kinds of
      failure. `Internal` carries the message of the error that was thrown. */
  datatype Outcome =
    | Ok(bead: ResolvedBead)
    | InvalidFormat
    | Unconfigured
    | NotFound(beadId: string)
    | Internal(message: string)

  /** An outcome together with the contract calls that were issued to reach
      it, in order. */
  datatype Resolution = Resolution(outcome: Outcome, calls: seq<Call>)

  /** Every contract call of a full resolution, in the order they are
      awaited. */
  const AllCalls: seq<Call> := [Exists, Beads, GetBeadMetadata, BeadToToken, GetTransferCount]

  /** The contract object exists only when the address is a truthy
      JavaScript string: present and not empty. */
  predicate Configured(cfg: Config) {
    cfg.contractAddress.Some? && cfg.contractAddress.value != ""
  }

  /** Builds the response object from the four reads; converting either
      timestamp can throw, which ends the resolution as an internal error. */
  function Assemble(id: string, address: string, record: BeadRecord, metadata: BeadMetadata,
                    tokenId: nat, transfers: nat): Outcome
  {
    match IsoTime.ToIsoString(record.createdAt)
    case None => Internal(IsoTime.RangeErrorMessage)
    case Some(createdAt) =>
      match IsoTime.ToIsoString(metadata.lastUpdate)
      case None => Internal(IsoTime.RangeErrorMessage)
      case Some(lastUpdate) =>
        Ok(ResolvedBead(
          beadId := id,
          sku := record.sku,
          version := metadata.currentVersion,
          genesisCID := metadata.genesisCID,
          tokenId := tokenId,
          validated := metadata.validated,
          isValid := metadata.isValid,
          transfers := transfers,
          createdAt := createdAt,
          lastUpdate := lastUpdate,
          blockchainVerified := true,
          network := Network,
          contractAddress := address,
          previousVersion := if metadata.currentVersion > 0 then Some(metadata.currentVersion - 1) else None))
  }

  /** The four reads of a bead that exists, awaited one after another; the
      first that fails ends the resolution. */
  function Fetch(address: string, st: State, id: string): Resolution
    requires id in st.beads
  {
    match CallBeads(st, id)
    case Failed(m) => Resolution(Internal(m), AllCalls[..2])
    case Returned(record) =>
      match CallGetBeadMetadata(st, id)
      case Failed(m) => Resolution(Internal(m), AllCalls[..3])
      case Returned(metadata) =>
        match CallBeadToToken(st, id)
        case Failed(m) => Resolution(Internal(m), AllCalls[..4])
        case Returned(tokenId) =>
          match CallGetTransferCount(st, id)
          case Failed(m) => Resolution(Internal(m), AllCalls)
          case Returned(transfers) =>
            Resolution(Assemble(id, address, record, metadata, tokenId, transfers), AllCalls)
  }

  /** Resolves the path segment `beadId` against configuration `cfg` and
      ledger snapshot `st`. */
  function Resolve(cfg: Config, st: State, beadId: string): (r: Resolution)
    // the format check comes first and touches nothing
    ensures r.outcome.InvalidFormat? <==> !BeadIds.IsWellFormed(beadId)
    // then the configuration check, which touches nothing either
    ensures r.outcome.Unconfigured? <==> BeadIds.IsWellFormed(beadId) && !Configured(cfg)
    ensures r.calls == [] <==> r.outcome.InvalidFormat? || r.outcome.Unconfigured?
    // otherwise the calls issued are a prefix of the full sequence
    ensures r.calls <= AllCalls
    // a bead is missing only when `exists` answered, and answered false
    ensures r.outcome.NotFound? <==>
      BeadIds.IsWellFormed(beadId) && Configured(cfg) && Exists !in st.faults && beadId !in st.beads
    ensures r.outcome.NotFound? ==> r.outcome.beadId == beadId && r.calls == [Exists]
    // every call before the last one succeeded, and a failing last call
    // ends the resolution with that call's error
    ensures forall i :: 0 <= i < |r.calls| - 1 ==> r.calls[i] !in st.faults
    ensures |r.calls| > 0 && r.calls[|r.calls| - 1] in st.faults ==>
      r.outcome == Internal(st.faults[r.calls[|r.calls| - 1]])
    // a response object is only built after all five calls succeeded
    ensures r.outcome.Ok? ==> r.calls == AllCalls && r.calls[4] !in st.faults
  {
    if !BeadIds.MatchesIdPattern(beadId) then Resolution(InvalidFormat, [])
    else if !Configured(cfg) then Resolution(Unconfigured, [])
    else
      match CallExists(st, beadId)
      case Failed(m) => Resolution(Internal(m), [Exists])
      case Returned(found) =>
        if !found then Resolution(NotFound(beadId), [Exists])
        else Fetch(cfg.contractAddress.value, st, beadId)
  }

  /** A malformed segment is answered the same way whatever the configuration
      and whatever the ledger holds: no contract call is ever made for it. */
  lemma MalformedIgnoresLedger(cfg1: Config, st1: State, cfg2: Config, st2: State, beadId: string)
    requires !BeadIds.IsWellFormed(beadId)
    ensures Resolve(cfg1, st1, beadId) == Resolve(cfg2, st2, beadId) == Resolution(InvalidFormat, [])
  {
  }

  /** Without a contract address, or with an empty one, a well-formed id is
      answered the same way whatever the ledger holds. */
  lemma UnconfiguredIgnoresLedger(cfg: Config, st1: State, st2: State, beadId: string)
    requires BeadIds.IsWellFormed(beadId) && !Configured(cfg)
    ensures Resolve(cfg, st1, beadId) == Resolve(cfg, st2, beadId) == Resolution(Unconfigured, [])
  {
  }

  /** An empty address string is falsy, so no contract object is built and
      the request is answered as unconfigured; any other address is used. */
  lemma EmptyAddressUnconfigured(address: string, st: State, beadId: string)
    requires BeadIds.IsWellFormed(beadId)
    ensures Resolve(Config(Some(address)), st, beadId).outcome.Unconfigured? <==> address == ""
  {
  }

  /** A failing contract call, `exists` included, always ends in an internal
      error carrying that call's message, never in "not found". */
  lemma FaultIsInternal(cfg: Config, st: State, beadId: string, i: int)
    requires 0 <= i < |Resolve(cfg, st, beadId).calls|
    requires Resolve(cfg, st, beadId).calls[i] in st.faults
    ensures var r := Resolve(cfg, st, beadId);
      i == |r.calls| - 1 && r.outcome == Internal(st.faults[r.calls[i]])
  {
  }

  /** When `exists` itself fails the resolution stops there with an internal
      error, whether or not the bead is on the ledger. */
  lemma ExistsFaultIsInternal(cfg: Config, st: State, beadId: string)
    requires BeadIds.IsWellFormed(beadId) && Configured(cfg) && Exists in st.faults
    ensures Resolve(cfg, st, beadId) == Resolution(Internal(st.faults[Exists]), [Exists])
  {
  }

  /** Where each field of a successful response comes from: the requested id,
      the primary record (`sku`, `createdAt`), the metadata (`version`,
      `genesisCID`, `validated`, `isValid`, `lastUpdate`), the token id and
      transfer count reads, and two constants. */
  lemma SuccessFieldSources(cfg: Config, st: State, beadId: string)
    requires Resolve(cfg, st, beadId).outcome.Ok?
    ensures beadId in st.beads && Configured(cfg)
    ensures var b := Resolve(cfg, st, beadId).outcome.bead;
      var e := st.beads[beadId];
      && b.beadId == beadId
      && b.sku == e.record.sku
      && b.version == e.metadata.currentVersion
      && b.genesisCID == e.metadata.genesisCID
      && b.tokenId == e.tokenId
      && b.validated == e.metadata.validated
      && b.isValid == e.metadata.isValid
      && b.transfers == e.transferCount
      && IsoTime.ToIsoString(e.record.createdAt) == Some(b.createdAt)
      && IsoTime.ToIsoString(e.metadata.lastUpdate) == Some(b.lastUpdate)
      && b.blockchainVerified
      && b.network == Network
      && b.contractAddress == cfg.contractAddress.value
  {
  }

  /** A well-formed id of an existing bead resolves successfully exactly when
      no call fails and both timestamps are within the range of a Date. */
  lemma SuccessIff(cfg: Config, st: State, beadId: string)
    requires BeadIds.IsWellFormed(beadId) && Configured(cfg) && beadId in st.beads
    ensures Resolve(cfg, st, beadId).outcome.Ok? <==>
      && (forall c :: c in AllCalls ==> c !in st.faults)
      && st.beads[beadId].record.createdAt <= IsoTime.MaxSeconds
      && st.beads[beadId].metadata.lastUpdate <= IsoTime.MaxSeconds
  {
  }

  /** With every call succeeding, a timestamp beyond the range of a Date
      makes `toISOString` throw, and the resolution ends as an internal
      error with the RangeError's message. */
  lemma TimestampOutOfRangeIsInternal(cfg: Config, st: State, beadId: string)
    requires BeadIds.IsWellFormed(beadId) && Configured(cfg) && beadId in st.beads
    requires forall c :: c in AllCalls ==> c !in st.faults
    requires st.beads[beadId].record.createdAt > IsoTime.MaxSeconds
          || st.beads[beadId].metadata.lastUpdate > IsoTime.MaxSeconds
    ensures Resolve(cfg, st, beadId) == Resolution(Internal(IsoTime.RangeErrorMessage), AllCalls)
  {
  }

  /** `previousVersion` is present exactly for evolved beads (version above
      zero), and then it is one less than the version. */
  lemma PreviousVersionIff(cfg: Config, st: State, beadId: string)
    requires Resolve(cfg, st, beadId).outcome.Ok?
    ensures var b := Resolve(cfg, st, beadId).outcome.bead;
      && (b.previousVersion.Some? <==> b.version > 0)
      && (b.previousVersion.Some? ==> b.previousVersion.value + 1 == b.version)
  {
  }

  /** The bead of the worked example: version 2, token 7, three transfers. */
  const ExampleEntry: Entry := Entry(
    BeadRecord("AB12CD34", "GOLD-1OZ", 1_700_000_000, true, true, 2, 1_700_050_000, "bafy...x"),
    BeadMetadata(2, true, true, 1_700_050_000, "bafy...x"),
    7,
    3)

  /** Worked example: an evolved bead resolves to the full response object,
      with `previousVersion` 1 and both timestamps rendered in UTC. */
  lemma ExampleResolution(address: string)
    requires address != ""
    ensures Resolve(Config(Some(address)), State(map["AB12CD34" := ExampleEntry], map[]), "AB12CD34")
         == Resolution(Ok(ResolvedBead(
              "AB12CD34", "GOLD-1OZ", 2, "bafy...x", 7, true, true, 3,
              "2023-11-14T22:13:20.000Z", "2023-11-15T12:06:40.000Z",
              true, "sepolia", address, Some(1))), AllCalls)
  {
    var st := State(map["AB12CD34" := ExampleEntry], map[]);
    BeadIds.PatternExamples();
    assert Resolve(Config(Some(address)), st, "AB12CD34") == Fetch(address, st, "AB12CD34");
    ExampleAssembly(address);
  }

  /** The response object assembled from the example bead's four reads. */
  lemma ExampleAssembly(address: string)
    ensures Assemble("AB12CD34", address, ExampleEntry.record, ExampleEntry.metadata, 7, 3)
         == Ok(ResolvedBead(
              "AB12CD34", "GOLD-1OZ", 2, "bafy...x", 7, true, true, 3,
              "2023-11-14T22:13:20.000Z", "2023-11-15T12:06:40.000Z",
              true, "sepolia", address, Some(1)))
  {
    IsoTime.IsoExampleCreated();
    IsoTime.IsoExampleUpdated();
  }

  /** A lower-case identifier is refused before any ledger read, whatever the ledger holds. */
  lemma ExampleRejection(address: string, st: State)
    ensures Resolve(Config(Some(address)), st, "zz999999") == Resolution(InvalidFormat, [])
  {
    BeadIds.PatternExamples();
  }
}

