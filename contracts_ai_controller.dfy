/** The AI-assisted contract handlers: creation that may fill value and duration from
    an extraction of the notes (the language model is an oracle), the COALESCE
    update, delete with its cascade to service rows, the near-renewal listing, the
    listing with each contract's service rows, and the per-service revenue rollup. */
module ContractsAiController {
  import opened Values
  import opened Database
  import CivilDate
  import Sorting
  import Filtering
  import Grouping

  const RequiredFieldsMessage := "Campos obrigatórios: leadId, startDate"
  const MissingTermsMessage :=
    "Informe o valor e duração do contrato, ou escreva uma descrição completa para a IA processar"
  const LeadNotFoundMessage := "Lead não encontrado"
  const ContractNotFoundMessage := "Contrato não encontrado"
  const CreateFailedMessage := "Erro ao criar contrato"

  /** One service the extraction found; `value` is in reais. */
  datatype ExtractedService = ExtractedService(name: string, value: int)

  /** A successful extraction: its services, total (reais) and duration (months). */
  datatype Extraction = Extraction(services: seq<ExtractedService>, totalValue: Option<int>, duration: Option<int>)

  predicate TruthyNumber(n: Option<int>) {
    n.Some? && n.value != 0
  }

  /** The extraction the handler obtains: the oracle is asked only when there are
      notes and the integration is configured; `None` is a failed extraction. */
  function Extract(body: Body, aiConfigured: bool, extract: string -> Option<Extraction>): Option<Extraction> {
    var notes := Field(body, "notes");
    if Truthy(notes) && aiConfigured then extract(ToText(notes)) else None
  }

  /** The contract terms after resolution. */
  datatype Terms = Terms(value: Value, duration: Value, services: seq<ExtractedService>, processedByAI: bool)

  /** Resolution field by field: an extracted total (in cents) or duration is used
      only when the extraction succeeded and the caller's own value is falsy; the
      services and the flag come from a successful extraction alone. */
  function ResolvedTerms(body: Body, ai: Option<Extraction>): Terms {
    var value := Field(body, "contractValue");
    var duration := Field(body, "contractDuration");
    var aiValue := ai.Some? && !Truthy(value) && TruthyNumber(ai.value.totalValue);
    var aiDuration := ai.Some? && !Truthy(duration) && TruthyNumber(ai.value.duration);
    Terms(
      if aiValue then Int(ai.value.totalValue.value * 100) else value,
      if aiDuration then Int(ai.value.duration.value) else duration,
      if ai.Some? then ai.value.services else [],
      ai.Some?)
  }

  /** The handler's step-by-step reassignment of `finalContractValue`,
      `finalContractDuration`, `extractedServices` and `processedByAI`. */
  method ResolveTerms(body: Body, aiConfigured: bool, extract: string -> Option<Extraction>) returns (t: Terms)
    ensures t == ResolvedTerms(body, Extract(body, aiConfigured, extract))
  {
    var contractValue := Field(body, "contractValue");
    var contractDuration := Field(body, "contractDuration");
    var finalValue := contractValue;
    var finalDuration := contractDuration;
    var extracted: seq<ExtractedService> := [];
    var processedByAI := false;
    var notes := Field(body, "notes");
    if Truthy(notes) && aiConfigured {
      var result := extract(ToText(notes));
      if result.Some? {
        processedByAI := true;
        var data := result.value;
        if !Truthy(contractValue) && TruthyNumber(data.totalValue) {
          finalValue := Int(data.totalValue.value * 100);
        }
        if !Truthy(contractDuration) && TruthyNumber(data.duration) {
          finalDuration := Int(data.duration.value);
        }
        if |data.services| > 0 {
          extracted := data.services;
        }
      }
    }
    t := Terms(finalValue, finalDuration, extracted, processedByAI);
  }

  /** Explicit truthy values are never overridden by the extraction. */
  lemma ExplicitTermsWin(body: Body, ai: Option<Extraction>)
    ensures Truthy(Field(body, "contractValue")) ==> ResolvedTerms(body, ai).value == Field(body, "contractValue")
    ensures Truthy(Field(body, "contractDuration")) ==> ResolvedTerms(body, ai).duration == Field(body, "contractDuration")
  {
  }

  /** A successful extraction fills a falsy value with its total in cents and a falsy
      duration with its duration; without a successful extraction nothing changes
      and nothing is marked as processed. */
  lemma ExtractionFillsGaps(body: Body, ai: Option<Extraction>)
    ensures ai.Some? && !Truthy(Field(body, "contractValue")) && TruthyNumber(ai.value.totalValue) ==>
      ResolvedTerms(body, ai).value == Int(ai.value.totalValue.value * 100)
    ensures ai.Some? && !Truthy(Field(body, "contractDuration")) && TruthyNumber(ai.value.duration) ==>
      ResolvedTerms(body, ai).duration == Int(ai.value.duration.value)
    ensures ai.None? ==>
      ResolvedTerms(body, ai) == Terms(Field(body, "contractValue"), Field(body, "contractDuration"), [], false)
    ensures ResolvedTerms(body, ai).processedByAI <==> ai.Some?
  {
  }

  /** The JSON of the extracted services, as `aiExtractedServices` stores it. */
  function ServicesJson(services: seq<ExtractedService>): Value {
    List(seq(|services|, i requires 0 <= i < |services| =>
      Object([Member("name", Str(services[i].name)), Member("value", Int(services[i].value))])))
  }

  /** The columns the INSERT of createContract writes. */
  function NewContractColumns(leadKey: nat, t: Terms, body: Body, start: CivilDate.Date, end: CivilDate.Date,
                              actor: Value): map<string, Value> {
    var services := Field(body, "services");
    map[
      "leadId" := Int(leadKey),
      "contractValue" := t.value,
      "contractDuration" := t.duration,
      "services" := if Truthy(services) then Str(Stringify(services)) else Null,
      "startDate" := Day(start),
      "endDate" := Day(end),
      "isActive" := Bool(true),
      "renewalNotified" := Bool(false),
      "notes" := OrNull(Field(body, "notes")),
      "createdBy" := actor,
      "processedByAI" := Bool(t.processedByAI),
      "aiExtractedServices" := if |t.services| > 0 then Str(Stringify(ServicesJson(t.services))) else Null
    ]
  }

  /** A new contract is active, not renewal-notified, runs from its start to its end
      date and is marked as processed exactly when the extraction succeeded. */
  lemma NewContractState(leadKey: nat, t: Terms, body: Body, start: CivilDate.Date, end: CivilDate.Date, actor: Value)
    ensures var cols := NewContractColumns(leadKey, t, body, start, end, actor);
      Col(cols, "isActive") == Bool(true) && Col(cols, "renewalNotified") == Bool(false) &&
      Col(cols, "startDate") == Day(start) && Col(cols, "endDate") == Day(end) &&
      Col(cols, "processedByAI") == Bool(t.processedByAI) && Col(cols, "leadId") == Int(leadKey) &&
      Col(cols, "contractValue") == t.value && Col(cols, "contractDuration") == t.duration
  {
  }

  /** The service row the loop inserts under id `id` (`first` is the first id used). */
  function ServiceRow(cid: nat, first: nat, services: seq<ExtractedService>, id: nat): ContractService
    requires first <= id < first + |services|
  {
    ContractService(id, cid, services[id - first].name, services[id - first].value * 100)
  }

  /** The rows of the first `n` services, by id. */
  function NewServiceTable(cid: nat, first: nat, services: seq<ExtractedService>, n: nat): map<nat, ContractService>
    requires n <= |services|
  {
    if n == 0 then map[]
    else NewServiceTable(cid, first, services, n - 1)[first + n - 1 := ServiceRow(cid, first, services, first + n - 1)]
  }

  /** The same rows as a listing in id order. */
  function NewServiceList(cid: nat, first: nat, services: seq<ExtractedService>, n: nat): seq<ContractService>
    requires n <= |services|
  {
    if n == 0 then []
    else NewServiceList(cid, first, services, n - 1) + [ServiceRow(cid, first, services, first + n - 1)]
  }

  /** One row per extracted service, referencing the new contract, valued in cents,
      under consecutive ids; the table holds exactly those ids. */
  lemma {:induction false} NewServiceRowsShape(cid: nat, first: nat, services: seq<ExtractedService>, n: nat)
    requires n <= |services|
    ensures var rows := NewServiceList(cid, first, services, n);
      |rows| == n &&
      forall i :: 0 <= i < n ==>
        rows[i].contractId == cid && rows[i].serviceName == services[i].name &&
        rows[i].serviceValue == services[i].value * 100 && rows[i].id == first + i
    ensures forall id :: id in NewServiceTable(cid, first, services, n) <==> first <= id < first + n
  {
    if n > 0 {
      NewServiceRowsShape(cid, first, services, n - 1);
      var rows := NewServiceList(cid, first, services, n);
      assert rows[n - 1] == ServiceRow(cid, first, services, first + n - 1);
      assert first + n - 1 - first == n - 1;
    }
  }

  /** The `for` loop inserting one `contract_services` row per extracted service,
      under consecutive AUTO_INCREMENT ids; it returns the rows it inserted. */
  method InsertServices(db: Db, cid: nat, services: seq<ExtractedService>) returns (created: seq<ContractService>)
    requires db.Valid() && cid in db.contracts
    modifies db`services, db`nextServiceId
    ensures db.Valid()
    ensures db.services == old(db.services) + NewServiceTable(cid, old(db.nextServiceId), services, |services|)
    ensures db.nextServiceId == old(db.nextServiceId) + |services|
    ensures created == NewServiceList(cid, old(db.nextServiceId), services, |services|)
  {
    var first := db.nextServiceId;
    ghost var before: map<nat, ContractService> := db.services;
    created := [];
    var i := 0;
    assert before + map[] == before;
    while i < |services|
      invariant 0 <= i <= |services|
      invariant db.nextServiceId == first + i
      invariant db.services == before + NewServiceTable(cid, first, services, i)
      invariant created == NewServiceList(cid, first, services, i)
      invariant db.Valid() && cid in db.contracts
    {
      var row := ServiceRow(cid, first, services, first + i);
      ghost var table: map<nat, ContractService> := NewServiceTable(cid, first, services, i);
      ghost var union: map<nat, ContractService> := before + table;
      NewServiceStep(cid, first, services, i);
      UnionUpdate(before, table, row.id, row);
      assert row.id == first + i;
      InsertService(db, row);
      assert db.services == union[row.id := row];
      created := created + [row];
      i := i + 1;
    }
  }

  /** One `INSERT INTO contract_services` under the next AUTO_INCREMENT id. */
  method InsertService(db: Db, row: ContractService)
    requires db.Valid() && row.id == db.nextServiceId && row.contractId in db.contracts
    modifies db`services, db`nextServiceId
    ensures db.Valid()
    ensures db.services == old(db.services)[row.id := row]
    ensures db.nextServiceId == old(db.nextServiceId) + 1
  {
    db.services := db.services[row.id := row];
    db.nextServiceId := db.nextServiceId + 1;
  }

  /** One more iteration adds the row under the next id. */
  lemma NewServiceStep(cid: nat, first: nat, services: seq<ExtractedService>, i: nat)
    requires i < |services|
    ensures NewServiceTable(cid, first, services, i + 1) ==
      NewServiceTable(cid, first, services, i)[first + i := ServiceRow(cid, first, services, first + i)]
    ensures NewServiceList(cid, first, services, i + 1) ==
      NewServiceList(cid, first, services, i) + [ServiceRow(cid, first, services, first + i)]
  {
    assert first + (i + 1) - 1 == first + i;
  }

  lemma UnionUpdate<K, V>(a: map<K, V>, b: map<K, V>, k: K, v: V)
    ensures (a + b)[k := v] == a + b[k := v]
  {
  }

  /** A contract with its service rows (`contract.extractedServices`). */
  datatype ContractDetails = ContractDetails(joined: JoinedContract, extractedServices: seq<ContractService>)

  /** Whether the request reaches the insert: both required fields, an existing lead,
      a value and a duration after resolution, a date start and a readable duration. */
  predicate Creates(leads: map<nat, Lead>, body: Body, t: Terms) {
    var leadId := SqlId(Field(body, "leadId"));
    Truthy(Field(body, "leadId")) && Truthy(Field(body, "startDate")) &&
    leadId.Some? && leadId.value in leads &&
    Truthy(t.value) && Truthy(t.duration) && EndDate(Field(body, "startDate"), t.duration).Some?
  }

  /** createContract. The checks run in the handler's order (400, 404, 400, then the
      500 of an unreadable date); none of them writes. Otherwise the contract is
      inserted, then one service row per extracted service, then the lead is closed. */
  method CreateContract(db: Db, body: Body, user: Option<AuthUser>, aiConfigured: bool,
                        extract: string -> Option<Extraction>, now: int) returns (r: Response<ContractDetails>)
    requires db.Valid()
    modifies db`contracts, db`nextContractId, db`services, db`nextServiceId, db`leads
    ensures db.Valid()
    ensures var t := ResolvedTerms(body, Extract(body, aiConfigured, extract));
      var leadId := SqlId(Field(body, "leadId"));
      !Creates(old(db.leads), body, t) ==>
        unchanged(db) &&
        (!Truthy(Field(body, "leadId")) || !Truthy(Field(body, "startDate")) ==> r == BadRequest(RequiredFieldsMessage)) &&
        (Truthy(Field(body, "leadId")) && Truthy(Field(body, "startDate")) && (leadId.None? || leadId.value !in old(db.leads)) ==>
           r == NotFound(LeadNotFoundMessage)) &&
        (Truthy(Field(body, "leadId")) && Truthy(Field(body, "startDate")) && leadId.Some? && leadId.value in old(db.leads) ==>
           (!Truthy(t.value) || !Truthy(t.duration) ==> r == BadRequest(MissingTermsMessage)) &&
           (Truthy(t.value) && Truthy(t.duration) ==> r == ServerError(CreateFailedMessage)))
    ensures var t := ResolvedTerms(body, Extract(body, aiConfigured, extract));
      Creates(old(db.leads), body, t) ==>
        var lid := SqlId(Field(body, "leadId")).value;
        var start := DateColumn(Field(body, "startDate")).value;
        var end := EndDate(Field(body, "startDate"), t.duration).value;
        var cid := old(db.nextContractId);
        var first := old(db.nextServiceId);
        var c := Contract(cid, NewContractColumns(lid, t, body, start, end, Actor(user)), now);
        db.contracts == old(db.contracts)[cid := c] && db.nextContractId == cid + 1 &&
        db.services == old(db.services) + NewServiceTable(cid, first, t.services, |t.services|) &&
        db.nextServiceId == first + |t.services| &&
        db.leads == old(db.leads)[lid := ClosedLead(old(db.leads)[lid], Actor(user), now)] &&
        r == Created(ContractDetails(LeftJoinLead(db.leads, c), NewServiceList(cid, first, t.services, |t.services|)))
  {
    var actor := Actor(user);
    var leadId := Field(body, "leadId");
    var startDate := Field(body, "startDate");
    if !Truthy(leadId) || !Truthy(startDate) {
      return BadRequest(RequiredFieldsMessage);
    }
    var key := SqlId(leadId);
    if key.None? || key.value !in db.leads {
      return NotFound(LeadNotFoundMessage);
    }
    var lid := key.value;
    var t := ResolveTerms(body, aiConfigured, extract);
    if !Truthy(t.value) || !Truthy(t.duration) {
      return BadRequest(MissingTermsMessage);
    }
    var endDate := EndDate(startDate, t.duration);
    if endDate.None? {
      return ServerError(CreateFailedMessage);
    }
    var start := DateColumn(startDate).value;
    var columns := NewContractColumns(lid, t, body, start, endDate.value, actor);
    var c, created := StoreContract(db, lid, columns, t.services, actor, now);
    r := Created(ContractDetails(LeftJoinLead(db.leads, c), created));
  }

  /** The writes of a successful createContract: the contract row, its service rows,
      then the `fechado` status of its lead. */
  method StoreContract(db: Db, lid: nat, columns: map<string, Value>, services: seq<ExtractedService>,
                       actor: Value, now: int) returns (c: Contract, created: seq<ContractService>)
    requires db.Valid() && lid in db.leads
    modifies db`contracts, db`nextContractId, db`services, db`nextServiceId, db`leads
    ensures db.Valid()
    ensures c == Contract(old(db.nextContractId), columns, now)
    ensures db.contracts == old(db.contracts)[c.id := c] && db.nextContractId == c.id + 1
    ensures db.services == old(db.services) + NewServiceTable(c.id, old(db.nextServiceId), services, |services|)
    ensures db.nextServiceId == old(db.nextServiceId) + |services|
    ensures created == NewServiceList(c.id, old(db.nextServiceId), services, |services|)
    ensures db.leads == old(db.leads)[lid := ClosedLead(old(db.leads)[lid], actor, now)]
  {
    var cid := db.nextContractId;
    c := Contract(cid, columns, now);
    db.contracts := db.contracts[cid := c];
    db.nextContractId := cid + 1;
    created := InsertServices(db, cid, services);
    db.leads := db.leads[lid := ClosedLead(db.leads[lid], actor, now)];
  }

  // ---------------------------------------------------------------- update

  /** The eight columns the UPDATE coalesces. */
  const CoalescedFields: set<string> :=
    {"contractValue", "contractDuration", "services", "startDate", "endDate", "isActive", "renewalNotified", "notes"}

  /** The parameter bound for column `k`; `services` is sent as JSON when truthy. */
  function CoalesceParameter(body: Body, k: string): Value {
    if k == "services" then
      var services := Field(body, "services");
      if Truthy(services) then Str(Stringify(services)) else Null
    else Field(body, k)
  }

  /** The row after `SET k = COALESCE(?, k)` for the eight columns and the stamps. */
  function CoalescedContract(c: Contract, body: Body, actor: Value, now: int): Contract {
    var given := map k | k in CoalescedFields && CoalesceParameter(body, k) != Null :: CoalesceParameter(body, k);
    c.(columns := c.columns + given + map["lastModifiedBy" := actor, "lastModifiedAt" := Int(now)])
  }

  /** A NULL or absent input keeps its column, any other input replaces it, the
      stamps are always written and no other column changes. */
  lemma CoalesceKeepsNulls(c: Contract, body: Body, user: Option<AuthUser>, now: int)
    ensures var u := CoalescedContract(c, body, Actor(user), now);
      u.id == c.id && u.createdAt == c.createdAt &&
      Col(u.columns, "lastModifiedBy") == Actor(user) && Col(u.columns, "lastModifiedAt") == Int(now) &&
      (forall k :: k in CoalescedFields && CoalesceParameter(body, k) == Null ==> Col(u.columns, k) == Col(c.columns, k)) &&
      (forall k :: k in CoalescedFields && CoalesceParameter(body, k) != Null ==> Col(u.columns, k) == CoalesceParameter(body, k)) &&
      (forall k :: k !in CoalescedFields && k != "lastModifiedBy" && k != "lastModifiedAt" ==> Col(u.columns, k) == Col(c.columns, k))
  {
    StampsAreNotCoalesced();
    forall k | k in CoalescedFields
      ensures Col(CoalescedContract(c, body, Actor(user), now).columns, k) ==
        if CoalesceParameter(body, k) != Null then CoalesceParameter(body, k) else Col(c.columns, k)
    {
      CoalescedColumn(c, body, Actor(user), now, k);
    }
    forall k | k !in CoalescedFields && k != "lastModifiedBy" && k != "lastModifiedAt"
      ensures Col(CoalescedContract(c, body, Actor(user), now).columns, k) == Col(c.columns, k)
    {
      CoalescedColumn(c, body, Actor(user), now, k);
    }
  }

  /** One column of the coalesced row other than the stamps. */
  lemma CoalescedColumn(c: Contract, body: Body, actor: Value, now: int, k: string)
    requires k != "lastModifiedBy" && k != "lastModifiedAt"
    ensures Col(CoalescedContract(c, body, actor, now).columns, k) ==
      if k in CoalescedFields && CoalesceParameter(body, k) != Null then CoalesceParameter(body, k) else Col(c.columns, k)
  {
    var given := map k | k in CoalescedFields && CoalesceParameter(body, k) != Null :: CoalesceParameter(body, k);
    assert CoalescedContract(c, body, actor, now).columns ==
      c.columns + given + map["lastModifiedBy" := actor, "lastModifiedAt" := Int(now)];
  }

  lemma StampsAreNotCoalesced()
    ensures "lastModifiedBy" !in CoalescedFields && "lastModifiedAt" !in CoalescedFields
  {
  }

  /** updateContract: 404 for a missing id; otherwise the coalesced row. */
  method UpdateContract(db: Db, id: int, body: Body, user: Option<AuthUser>, now: int) returns (r: Response<JoinedContract>)
    requires db.Valid()
    modifies db`contracts
    ensures db.Valid()
    ensures id !in old(db.contracts) ==> r == NotFound(ContractNotFoundMessage) && db.contracts == old(db.contracts)
    ensures id in old(db.contracts) ==>
      var c := CoalescedContract(old(db.contracts)[id], body, Actor(user), now);
      db.contracts == old(db.contracts)[id := c] && r == Ok(LeftJoinLead(db.leads, c))
  {
    if id < 0 || id !in db.contracts {
      return NotFound(ContractNotFoundMessage);
    }
    var c := CoalescedContract(db.contracts[id], body, Actor(user), now);
    db.contracts := db.contracts[id := c];
    r := Ok(LeftJoinLead(db.leads, c));
  }

  // ---------------------------------------------------------------- delete

  /** deleteContract: 404 for a missing id; otherwise the contract and every one of
      its service rows are gone and nothing else is. */
  method DeleteContract(db: Db, id: int) returns (r: Response<()>)
    requires db.Valid()
    modifies db`contracts, db`services
    ensures db.Valid()
    ensures id !in old(db.contracts) ==>
      r == NotFound(ContractNotFoundMessage) && db.contracts == old(db.contracts) && db.services == old(db.services)
    ensures id in old(db.contracts) ==>
      r == Ok(()) && db.contracts == old(db.contracts) - {id} && db.services == WithoutContract(old(db.services), id)
  {
    if id < 0 || id !in db.contracts {
      return NotFound(ContractNotFoundMessage);
    }
    db.contracts := db.contracts - {id};
    db.services := WithoutContract(db.services, id);
    r := Ok(());
  }

  // ---------------------------------------------------------------- near renewal

  /** `DATEDIFF(endDate, NOW())`, when the end date is a date. */
  function DaysUntilEnd(c: Contract, now: int): Option<int> {
    var end := DateColumn(Col(c.columns, "endDate"));
    if end.Some? then Some(CivilDate.EpochDay(end.value) - Today(now)) else None
  }

  /** The WHERE clause of getContractsNearRenewal. */
  predicate NearRenewal(c: Contract, days: int, now: int) {
    var left := DaysUntilEnd(c, now);
    IsOne(Col(c.columns, "isActive")) && IsZero(Col(c.columns, "renewalNotified")) &&
    left.Some? && 0 <= left.value <= days
  }

  /** The `days` query parameter, 30 when absent. */
  function WindowDays(days: Option<int>): int {
    if days.Some? then days.value else 30
  }

  /** The near-renewal contracts: exactly the active, un-notified ones ending between
      today and `days` days from now, soonest first. */
  function ContractsNearRenewal(rows: seq<Contract>, days: Option<int>, now: int): (r: seq<Contract>)
    ensures forall c :: c in r <==> c in rows && NearRenewal(c, WindowDays(days), now)
    ensures forall i, j :: 0 <= i < j < |r| ==> EndDay(r[i]) <= EndDay(r[j])
    ensures forall c :: c in r ==>
      DaysUntilEnd(c, now).Some? && 0 <= DaysUntilEnd(c, now).value <= WindowDays(days)
    ensures forall c :: multiset(r)[c] == if NearRenewal(c, WindowDays(days), now) then multiset(rows)[c] else 0
  {
    var kept := Filtering.Filter(rows, (c: Contract) => NearRenewal(c, WindowDays(days), now));
    Filtering.FilterCounts(rows, (c: Contract) => NearRenewal(c, WindowDays(days), now));
    Sorting.SortByMembers(kept, EndDay);
    Sorting.SortBy(kept, EndDay)
  }

  /** getContractsNearRenewal over the store, joined with each contract's lead. */
  function GetContractsNearRenewal(db: Db, days: Option<int>, now: int): (js: seq<JoinedContract>)
    reads db
    ensures forall i :: 0 <= i < |js| ==>
      js[i].contract in db.ContractRows() && NearRenewal(js[i].contract, WindowDays(days), now)
    ensures forall c :: c in db.ContractRows() && NearRenewal(c, WindowDays(days), now) ==>
      exists i :: 0 <= i < |js| && js[i].contract == c
  {
    var listed := ContractsNearRenewal(db.ContractRows(), days, now);
    JoinKeepsContracts(db.leads, listed);
    JoinLeads(db.leads, listed)
  }

  /** The joined near-renewal rows come soonest end first, each with its lead's
      columns. */
  lemma NearRenewalJoined(db: Db, days: Option<int>, now: int)
    ensures var js := GetContractsNearRenewal(db, days, now);
      (forall i, j :: 0 <= i < j < |js| ==> EndDay(js[i].contract) <= EndDay(js[j].contract)) &&
      (forall i :: 0 <= i < |js| ==> JoinedWith(db.leads, js[i].contract, js[i]))
  {
    var listed := ContractsNearRenewal(db.ContractRows(), days, now);
    var js := JoinLeads(db.leads, listed);
    assert GetContractsNearRenewal(db, days, now) == js;
    assert forall i :: 0 <= i < |js| ==> js[i].contract == listed[i];
  }

  /** A notified contract, a contract already past its end and one ending beyond the
      window are never listed. */
  lemma NearRenewalExclusions(rows: seq<Contract>, days: Option<int>, now: int, c: Contract)
    requires c in rows
    requires !IsZero(Col(c.columns, "renewalNotified")) ||
             (DaysUntilEnd(c, now).Some? && (DaysUntilEnd(c, now).value < 0 || DaysUntilEnd(c, now).value > WindowDays(days)))
    ensures c !in ContractsNearRenewal(rows, days, now)
  {
  }

  // ---------------------------------------------------------------- listing with services

  /** The `isActive` query parameter: absent lists all, `'true'` active ones, any other
      text inactive ones. */
  predicate ActiveFilter(isActive: Option<string>, c: Contract) {
    isActive.None? ||
    (isActive.value == "true" && IsOne(Col(c.columns, "isActive"))) ||
    (isActive.value != "true" && IsZero(Col(c.columns, "isActive")))
  }

  /** The sort key of `ORDER BY c.createdAt DESC`. */
  function NewestFirst(c: Contract): int {
    -c.createdAt
  }

  /** The contracts getAllContracts lists: those the filter keeps, newest first. */
  function ListedContracts(rows: seq<Contract>, isActive: Option<string>): (r: seq<Contract>)
    ensures forall c :: c in r <==> c in rows && ActiveFilter(isActive, c)
    ensures forall i, j :: 0 <= i < j < |r| ==> r[i].createdAt >= r[j].createdAt
    ensures forall c :: multiset(r)[c] == if ActiveFilter(isActive, c) then multiset(rows)[c] else 0
  {
    var kept := Filtering.Filter(rows, (c: Contract) => ActiveFilter(isActive, c));
    Filtering.FilterCounts(rows, (c: Contract) => ActiveFilter(isActive, c));
    Sorting.SortByMembers(kept, NewestFirst);
    var sorted := Sorting.SortBy(kept, NewestFirst);
    assert forall i, j :: 0 <= i < j < |sorted| ==> NewestFirst(sorted[i]) <= NewestFirst(sorted[j]);
    sorted
  }

  /** `SELECT * FROM contract_services WHERE contractId = ?`. */
  function ServicesOf(rows: seq<ContractService>, cid: nat): (r: seq<ContractService>)
    ensures forall s :: s in r <==> s in rows && s.contractId == cid
    ensures forall s :: multiset(r)[s] == if s.contractId == cid then multiset(rows)[s] else 0
  {
    Filtering.FilterCounts(rows, (s: ContractService) => s.contractId == cid);
    Filtering.Filter(rows, (s: ContractService) => s.contractId == cid)
  }

  /** getAllContracts: the `for` loop that attaches its service rows to each listed
      contract. */
  method GetAllContracts(db: Db, isActive: Option<string>) returns (r: seq<ContractDetails>)
    requires db.Valid()
    ensures var listed := ListedContracts(db.ContractRows(), isActive);
      |r| == |listed| &&
      forall i :: 0 <= i < |r| ==>
        r[i].joined == LeftJoinLead(db.leads, listed[i]) &&
        r[i].extractedServices == ServicesOf(db.ServiceRows(), listed[i].id)
  {
    var listed := ListedContracts(db.ContractRows(), isActive);
    var rows := db.ServiceRows();
    r := [];
    for i := 0 to |listed|
      invariant |r| == i
      invariant forall k :: 0 <= k < i ==>
        r[k].joined == LeftJoinLead(db.leads, listed[k]) && r[k].extractedServices == ServicesOf(rows, listed[k].id)
    {
      var contract := listed[i];
      var services := ServicesOf(rows, contract.id);
      r := r + [ContractDetails(LeftJoinLead(db.leads, contract), services)];
    }
  }

  // ---------------------------------------------------------------- service stats

  /** One row of getServiceStats (`avgRevenue` is left out). */
  datatype ServiceStat = ServiceStat(serviceName: string, contractCount: nat, totalRevenue: int)

  function ServiceName(s: ContractService): string {
    s.serviceName
  }

  function ServiceValue(s: ContractService): int {
    s.serviceValue
  }

  function RevenueFirst(s: ServiceStat): int {
    -s.totalRevenue
  }

  /** The groups of `GROUP BY serviceName`, in order of first appearance. */
  function ServiceGroups(rows: seq<ContractService>): (g: seq<ServiceStat>)
    ensures |g| == |Grouping.Keys(rows, ServiceName)|
    ensures forall i :: 0 <= i < |g| ==> g[i].serviceName == Grouping.Keys(rows, ServiceName)[i]
  {
    var names := Grouping.Keys(rows, ServiceName);
    seq(|names|, i requires 0 <= i < |names| =>
      ServiceStat(names[i], Grouping.Count(rows, ServiceName, names[i]), Grouping.Sum(rows, ServiceName, ServiceValue, names[i])))
  }

  /** The facts the sort carries over: one group per name, each with its own
      count and revenue. */
  predicate StatsOf(rows: seq<ContractService>, g: seq<ServiceStat>) {
    (forall s :: s in g ==>
      s.contractCount == Grouping.Count(rows, ServiceName, s.serviceName) && s.contractCount > 0 &&
      s.totalRevenue == Grouping.Sum(rows, ServiceName, ServiceValue, s.serviceName)) &&
    (forall i :: 0 <= i < |rows| ==> rows[i].serviceName in NamesOf(g))
  }

  /** The service names a list of stats covers. */
  function NamesOf(g: seq<ServiceStat>): set<string> {
    set s | s in g :: s.serviceName
  }

  lemma ServiceGroupsFacts(rows: seq<ContractService>)
    ensures StatsOf(rows, ServiceGroups(rows))
    ensures forall i, j :: 0 <= i < j < |ServiceGroups(rows)| ==>
      ServiceGroups(rows)[i].serviceName != ServiceGroups(rows)[j].serviceName
  {
    var groups := ServiceGroups(rows);
    var names := Grouping.Keys(rows, ServiceName);
    forall s | s in groups
      ensures s.contractCount == Grouping.Count(rows, ServiceName, s.serviceName) && s.contractCount > 0
      ensures s.totalRevenue == Grouping.Sum(rows, ServiceName, ServiceValue, s.serviceName)
    {
      var k :| 0 <= k < |groups| && groups[k] == s;
      assert names[k] in names;
    }
    forall i | 0 <= i < |rows| ensures rows[i].serviceName in NamesOf(groups) {
      assert ServiceName(rows[i]) in names;
      var k :| 0 <= k < |names| && names[k] == rows[i].serviceName;
      assert groups[k] in groups;
    }
  }

  /** Sorting keeps one group per name and the facts of each group. */
  lemma SortedStatsFacts(rows: seq<ContractService>, g: seq<ServiceStat>, r: seq<ServiceStat>)
    requires StatsOf(rows, g)
    requires forall i, j :: 0 <= i < j < |g| ==> g[i].serviceName != g[j].serviceName
    requires forall x :: x in r <==> x in g
    requires Sorting.NoDuplicates(r)
    ensures StatsOf(rows, r)
    ensures forall i, j :: 0 <= i < j < |r| ==> r[i].serviceName != r[j].serviceName
  {
    forall i, j | 0 <= i < j < |r| ensures r[i].serviceName != r[j].serviceName {
      assert r[i] in g && r[j] in g;
      var a :| 0 <= a < |g| && g[a] == r[i];
      var b :| 0 <= b < |g| && g[b] == r[j];
      assert a != b;
    }
    assert NamesOf(r) == NamesOf(g);
  }

  /** getServiceStats: one entry per service name, with the number of rows and the
      revenue of that name, ordered by revenue descending. */
  function ServiceStats(rows: seq<ContractService>): (r: seq<ServiceStat>)
    ensures forall i, j :: 0 <= i < j < |r| ==> r[i].totalRevenue >= r[j].totalRevenue
    ensures StatsOf(rows, r)
    ensures forall i, j :: 0 <= i < j < |r| ==> r[i].serviceName != r[j].serviceName
  {
    var r := Sorting.SortBy(ServiceGroups(rows), RevenueFirst);
    SortedGroupsFacts(rows);
    RevenueOrder(r);
    r
  }

  lemma SortedGroupsFacts(rows: seq<ContractService>)
    ensures var r := Sorting.SortBy(ServiceGroups(rows), RevenueFirst);
      StatsOf(rows, r) && forall i, j :: 0 <= i < j < |r| ==> r[i].serviceName != r[j].serviceName
  {
    var groups := ServiceGroups(rows);
    ServiceGroupsFacts(rows);
    assert Sorting.NoDuplicates(groups);
    Sorting.SortByMembers(groups, RevenueFirst);
    Sorting.SortByNoDuplicates(groups, RevenueFirst);
    SortedStatsFacts(rows, groups, Sorting.SortBy(groups, RevenueFirst));
  }

  lemma RevenueOrder(r: seq<ServiceStat>)
    requires Sorting.SortedBy(r, RevenueFirst)
    ensures forall i, j :: 0 <= i < j < |r| ==> r[i].totalRevenue >= r[j].totalRevenue
  {
    forall i, j | 0 <= i < j < |r| ensures r[i].totalRevenue >= r[j].totalRevenue {
      assert RevenueFirst(r[i]) <= RevenueFirst(r[j]);
    }
  }

  /** The grouped counts add up to the number of service rows. */
  lemma ServiceCountsCoverAll(rows: seq<ContractService>)
    ensures Grouping.TotalCount(Grouping.Keys(rows, ServiceName), rows, ServiceName) == |rows|
  {
    Grouping.GroupCountsCoverAll(rows, ServiceName);
  }
}
