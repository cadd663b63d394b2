/** What the `GET /:beadId` handler sends: a status code and a JSON object.
    The object is modelled as a map from key to value; an absent key is a
    field that is not in the object at all. */
module Http {
  import opened Wrappers
  import BeadIds
  import opened Ledger
  import opened Resolver

  datatype Json = JStr(str: string) | JNum(num: int) | JBool(flag: bool)

  datatype Response = Response(status: int, body: map<string, Json>)

  const InvalidFormatError: string := "Invalid BeadId format"
  const InvalidFormatMessage: string := "BeadId must be 8 alphanumeric characters"
  const UnconfiguredError: string := "Service not configured"
  const UnconfiguredMessage: string := "Contract address not set"
  const NotFoundError: string := "Bead not found"
  const InternalError: string := "Internal server error"

  /** The JSON object of a successful resolution, one key per field of the
      response object; `previousVersion` only when the object has it. */
  function SuccessBody(b: ResolvedBead): map<string, Json> {
    var fields := map[
      "beadId" := JStr(b.beadId),
      "sku" := JStr(b.sku),
      "version" := JNum(b.version),
      "genesisCID" := JStr(b.genesisCID),
      "tokenId" := JNum(b.tokenId),
      "validated" := JBool(b.validated),
      "isValid" := JBool(b.isValid),
      "transfers" := JNum(b.transfers),
      "createdAt" := JStr(b.createdAt),
      "lastUpdate" := JStr(b.lastUpdate),
      "blockchainVerified" := JBool(b.blockchainVerified),
      "network" := JStr(b.network),
      "contractAddress" := JStr(b.contractAddress)];
    match b.previousVersion
    case None => fields
    case Some(p) => fields["previousVersion" := JNum(p)]
  }

  /** The status code and body for each outcome. */
  function Respond(o: Outcome): (resp: Response)
    ensures resp.status == 200 <==> o.Ok?
    ensures resp.status == 400 <==> o.InvalidFormat?
    ensures resp.status == 503 <==> o.Unconfigured?
    ensures resp.status == 404 <==> o.NotFound?
    ensures resp.status == 500 <==> o.Internal?
    ensures "error" in resp.body <==> !o.Ok?
  {
    match o
    case Ok(b) => Response(200, SuccessBody(b))
    case InvalidFormat =>
      Response(400, map["error" := JStr(InvalidFormatError), "message" := JStr(InvalidFormatMessage)])
    case Unconfigured =>
      Response(503, map["error" := JStr(UnconfiguredError), "message" := JStr(UnconfiguredMessage)])
    case NotFound(id) =>
      Response(404, map["error" := JStr(NotFoundError), "beadId" := JStr(id)])
    case Internal(m) =>
      Response(500, map["error" := JStr(InternalError), "message" := JStr(m)])
  }

  /** The handler: resolve the path segment, then answer. */
  function HandleRequest(cfg: Config, st: State, beadId: string): (resp: Response)
    ensures resp.status in {200, 400, 404, 500, 503}
    ensures resp.status == 400 <==> !BeadIds.IsWellFormed(beadId)
    ensures resp.status == 503 <==> BeadIds.IsWellFormed(beadId) && !Configured(cfg)
    ensures resp.status == 404 <==>
      BeadIds.IsWellFormed(beadId) && Configured(cfg) && Exists !in st.faults && beadId !in st.beads
    ensures resp.status == 200 ==> beadId in st.beads && forall c :: c in AllCalls ==> c !in st.faults
    ensures "error" in resp.body <==> resp.status != 200
  {
    Respond(Resolve(cfg, st, beadId).outcome)
  }

  /** A malformed segment gets 400 and the same body whatever the
      configuration and the ledger. */
  lemma MalformedIs400(cfg: Config, st: State, beadId: string)
    requires !BeadIds.IsWellFormed(beadId)
    ensures HandleRequest(cfg, st, beadId)
         == Response(400, map["error" := JStr(InvalidFormatError), "message" := JStr(InvalidFormatMessage)])
  {
  }

  /** A well-formed segment without a configured contract gets 503. */
  lemma UnconfiguredIs503(cfg: Config, st: State, beadId: string)
    requires BeadIds.IsWellFormed(beadId) && !Configured(cfg)
    ensures HandleRequest(cfg, st, beadId)
         == Response(503, map["error" := JStr(UnconfiguredError), "message" := JStr(UnconfiguredMessage)])
  {
  }

  /** 404 is answered exactly for a well-formed, configured request whose
      `exists` call answered false, and it echoes the requested id. */
  lemma NotFoundIs404(cfg: Config, st: State, beadId: string)
    ensures HandleRequest(cfg, st, beadId).status == 404 <==>
      BeadIds.IsWellFormed(beadId) && Configured(cfg) && Exists !in st.faults && beadId !in st.beads
    ensures HandleRequest(cfg, st, beadId).status == 404 ==>
      HandleRequest(cfg, st, beadId).body == map["error" := JStr(NotFoundError), "beadId" := JStr(beadId)]
  {
  }

  /** A failing `exists` call is answered 500 with its message, never 404. */
  lemma ExistsFaultIs500(cfg: Config, st: State, beadId: string)
    requires BeadIds.IsWellFormed(beadId) && Configured(cfg) && Exists in st.faults
    ensures HandleRequest(cfg, st, beadId)
         == Response(500, map["error" := JStr(InternalError), "message" := JStr(st.faults[Exists])])
  {
  }

  /** The success body holds the fields of the response object under their
      own keys. */
  lemma SuccessBodyFields(b: ResolvedBead)
    ensures var body := SuccessBody(b);
      && body["beadId"] == JStr(b.beadId)
      && body["sku"] == JStr(b.sku)
      && body["version"] == JNum(b.version)
      && body["genesisCID"] == JStr(b.genesisCID)
      && body["tokenId"] == JNum(b.tokenId)
      && body["validated"] == JBool(b.validated)
      && body["isValid"] == JBool(b.isValid)
      && body["transfers"] == JNum(b.transfers)
      && body["createdAt"] == JStr(b.createdAt)
      && body["lastUpdate"] == JStr(b.lastUpdate)
      && body["blockchainVerified"] == JBool(b.blockchainVerified)
      && body["network"] == JStr(b.network)
      && body["contractAddress"] == JStr(b.contractAddress)
  {
    SuccessBodyRecordFields(b);
    SuccessBodyFlags(b);
    SuccessBodyOtherFields(b);
  }

  /** The fields read from the ledger records, under their own keys. */
  lemma SuccessBodyRecordFields(b: ResolvedBead)
    ensures var body := SuccessBody(b);
      && body["sku"] == JStr(b.sku)
      && body["version"] == JNum(b.version)
      && body["genesisCID"] == JStr(b.genesisCID)
      && body["createdAt"] == JStr(b.createdAt)
  {
    SuccessBodyFlags(b);
  }

  /** The validation flags and the last update time, under their own keys. */
  lemma SuccessBodyFlags(b: ResolvedBead)
    ensures var body := SuccessBody(b);
      && body["validated"] == JBool(b.validated)
      && body["isValid"] == JBool(b.isValid)
      && body["lastUpdate"] == JStr(b.lastUpdate)
  {
  }

  /** The request, token, transfer and deployment fields, under their own keys. */
  lemma SuccessBodyOtherFields(b: ResolvedBead)
    ensures var body := SuccessBody(b);
      && body["beadId"] == JStr(b.beadId)
      && body["tokenId"] == JNum(b.tokenId)
      && body["transfers"] == JNum(b.transfers)
      && body["blockchainVerified"] == JBool(b.blockchainVerified)
      && body["network"] == JStr(b.network)
      && body["contractAddress"] == JStr(b.contractAddress)
  {
  }

  /** The keys of the response object built by the handler. */
  const ResponseKeys: set<string> := {
    "beadId", "sku", "version", "genesisCID", "tokenId", "validated", "isValid",
    "transfers", "createdAt", "lastUpdate", "blockchainVerified", "network", "contractAddress"}

  /** The success body has exactly the thirteen fields of the response
      object, plus `previousVersion` when the object has it, and no other key. */
  lemma SuccessBodyKeys(b: ResolvedBead)
    ensures SuccessBody(b).Keys
         == ResponseKeys + (if b.previousVersion.Some? then {"previousVersion"} else {})
  {
  }

  /** The success body has the `previousVersion` key exactly when the
      response object has the field, and then holds its value. */
  lemma SuccessBodyPreviousVersion(b: ResolvedBead)
    ensures var body := SuccessBody(b);
      && ("previousVersion" in body <==> b.previousVersion.Some?)
      && (b.previousVersion.Some? ==> body["previousVersion"] == JNum(b.previousVersion.value))
  {
    assert "previousVersion"[0] == 'p';
  }

  /** In a 200 body the `previousVersion` key is present exactly when the
      version is above zero, and then holds the version minus one. */
  lemma PreviousVersionKey(cfg: Config, st: State, beadId: string)
    requires HandleRequest(cfg, st, beadId).status == 200
    ensures var body := HandleRequest(cfg, st, beadId).body;
      var version := Resolve(cfg, st, beadId).outcome.bead.version;
      && body["version"] == JNum(version)
      && ("previousVersion" in body <==> version > 0)
      && ("previousVersion" in body ==> body["previousVersion"] == JNum(version - 1))
  {
    PreviousVersionIff(cfg, st, beadId);
    OkBodyPreviousVersion(Resolve(cfg, st, beadId).outcome);
  }

  lemma OkBodyPreviousVersion(o: Outcome)
    requires o.Ok?
    requires o.bead.previousVersion.Some? <==> o.bead.version > 0
    requires o.bead.previousVersion.Some? ==> o.bead.previousVersion.value + 1 == o.bead.version
    ensures var body := Respond(o).body;
      && body["version"] == JNum(o.bead.version)
      && ("previousVersion" in body <==> o.bead.version > 0)
      && ("previousVersion" in body ==> body["previousVersion"] == JNum(o.bead.version - 1))
  {
    SuccessBodyFields(o.bead);
    SuccessBodyPreviousVersion(o.bead);
  }

  /** Worked example at the HTTP boundary: the evolved example bead is
      answered 200 with version 2, previousVersion 1, token 7, three
      transfers and its creation time in UTC. */
  lemma ExampleResponse(address: string)
    requires address != ""
    ensures var resp := HandleRequest(Config(Some(address)), State(map["AB12CD34" := ExampleEntry], map[]), "AB12CD34");
      && resp.status == 200
      && resp.body["version"] == JNum(2)
      && resp.body["previousVersion"] == JNum(1)
      && resp.body["tokenId"] == JNum(7)
      && resp.body["transfers"] == JNum(3)
      && resp.body["createdAt"] == JStr("2023-11-14T22:13:20.000Z")
      && resp.body["blockchainVerified"] == JBool(true)
  {
    ExampleResolution(address);
    var b := Resolve(Config(Some(address)), State(map["AB12CD34" := ExampleEntry], map[]), "AB12CD34").outcome.bead;
    SuccessBodyFields(b);
    SuccessBodyPreviousVersion(b);
  }
}

