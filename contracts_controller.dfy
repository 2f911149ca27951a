/** The older contract handlers: creation with strict required fields, the
    allow-list update that JSON-encodes `services`, delete, and the fixed 30-day
    renewal listing. */
module ContractsController {
  import opened Values
  import opened Database
  import CivilDate
  import Sorting
  import Filtering

  const RequiredFieldsMessage := "Campos obrigatórios: leadId, contractValue, contractDuration, startDate"
  const LeadNotFoundMessage := "Lead não encontrado"
  const ContractNotFoundMessage := "Contrato não encontrado"
  const NothingToUpdateMessage := "Nenhum campo válido para atualizar"
  const CreateFailedMessage := "Erro ao criar contrato"

  /** The four fields creation demands. */
  predicate HasRequiredFields(body: Body) {
    Truthy(Field(body, "leadId")) && Truthy(Field(body, "contractValue")) &&
    Truthy(Field(body, "contractDuration")) && Truthy(Field(body, "startDate"))
  }

  /** Each of the four fields is needed on its own: a falsy value in any of them (a
      value of 0, an empty string, NULL or absence) fails the check. */
  lemma RequiredFieldsAreAllNeeded(body: Body, k: string)
    requires k in {"leadId", "contractValue", "contractDuration", "startDate"}
    requires !Truthy(Field(body, k))
    ensures !HasRequiredFields(body)
  {
  }

  /** The ten columns the INSERT writes. */
  function NewContractColumns(leadKey: nat, body: Body, start: CivilDate.Date, end: CivilDate.Date, actor: Value)
    : map<string, Value>
  {
    var services := Field(body, "services");
    map[
      "leadId" := Int(leadKey),
      "contractValue" := Field(body, "contractValue"),
      "contractDuration" := Field(body, "contractDuration"),
      "services" := if Truthy(services) then Str(Stringify(services)) else Null,
      "startDate" := Day(start),
      "endDate" := Day(end),
      "isActive" := Bool(true),
      "renewalNotified" := Bool(false),
      "notes" := OrNull(Field(body, "notes")),
      "createdBy" := actor
    ]
  }

  /** A new contract stores the caller's value and duration, runs from its start to
      its end date, is active and is not renewal-notified. */
  lemma NewContractState(leadKey: nat, body: Body, start: CivilDate.Date, end: CivilDate.Date, actor: Value)
    ensures var cols := NewContractColumns(leadKey, body, start, end, actor);
      Col(cols, "isActive") == Bool(true) && Col(cols, "renewalNotified") == Bool(false) &&
      Col(cols, "startDate") == Day(start) && Col(cols, "endDate") == Day(end) &&
      Col(cols, "leadId") == Int(leadKey) && Col(cols, "createdBy") == actor &&
      Col(cols, "contractValue") == Field(body, "contractValue") &&
      Col(cols, "contractDuration") == Field(body, "contractDuration")
  {
  }

  /** Whether the request reaches the insert. */
  predicate Creates(leads: map<nat, Lead>, body: Body) {
    var leadId := SqlId(Field(body, "leadId"));
    HasRequiredFields(body) && leadId.Some? && leadId.value in leads &&
    EndDate(Field(body, "startDate"), Field(body, "contractDuration")).Some?
  }

  /** createContract: 400 unless all four fields are truthy, 404 for a lead that
      does not exist, 500 for an unreadable start date or duration; none of these
      writes. Otherwise the contract is inserted and its lead is closed. */
  method CreateContract(db: Db, body: Body, user: Option<AuthUser>, now: int) returns (r: Response<JoinedContract>)
    requires db.Valid()
    modifies db`contracts, db`nextContractId, db`leads
    ensures db.Valid()
    ensures !HasRequiredFields(body) ==> r == BadRequest(RequiredFieldsMessage) && unchanged(db)
    ensures var leadId := SqlId(Field(body, "leadId"));
      HasRequiredFields(body) && (leadId.None? || leadId.value !in old(db.leads)) ==>
        r == NotFound(LeadNotFoundMessage) && unchanged(db)
    ensures var leadId := SqlId(Field(body, "leadId"));
      HasRequiredFields(body) && leadId.Some? && leadId.value in old(db.leads) && !Creates(old(db.leads), body) ==>
        r == ServerError(CreateFailedMessage) && unchanged(db)
    ensures Creates(old(db.leads), body) ==>
      var lid := SqlId(Field(body, "leadId")).value;
      var start := DateColumn(Field(body, "startDate")).value;
      var end := EndDate(Field(body, "startDate"), Field(body, "contractDuration")).value;
      var c := Contract(old(db.nextContractId), NewContractColumns(lid, body, start, end, Actor(user)), now);
      db.contracts == old(db.contracts)[c.id := c] && db.nextContractId == c.id + 1 &&
      db.leads == old(db.leads)[lid := ClosedLead(old(db.leads)[lid], Actor(user), now)] &&
      r == Created(LeftJoinLead(db.leads, c))
  {
    var actor := Actor(user);
    if !HasRequiredFields(body) {
      return BadRequest(RequiredFieldsMessage);
    }
    var key := SqlId(Field(body, "leadId"));
    if key.None? || key.value !in db.leads {
      return NotFound(LeadNotFoundMessage);
    }
    var lid := key.value;
    var startDate := Field(body, "startDate");
    var endDate := EndDate(startDate, Field(body, "contractDuration"));
    if endDate.None? {
      return ServerError(CreateFailedMessage);
    }
    var columns := NewContractColumns(lid, body, DateColumn(startDate).value, endDate.value, actor);
    var c := StoreContract(db, lid, columns, actor, now);
    r := Created(LeftJoinLead(db.leads, c));
  }

  /** The two writes of a successful createContract: the contract row, then the
      `fechado` status of its lead. */
  method StoreContract(db: Db, lid: nat, columns: map<string, Value>, actor: Value, now: int) returns (c: Contract)
    requires db.Valid() && lid in db.leads
    modifies db`contracts, db`nextContractId, db`leads
    ensures db.Valid()
    ensures c == Contract(old(db.nextContractId), columns, now)
    ensures db.contracts == old(db.contracts)[c.id := c] && db.nextContractId == c.id + 1
    ensures db.leads == old(db.leads)[lid := ClosedLead(old(db.leads)[lid], actor, now)]
  {
    var cid := db.nextContractId;
    c := Contract(cid, columns, now);
    db.contracts := db.contracts[cid := c];
    db.nextContractId := cid + 1;
    db.leads := db.leads[lid := ClosedLead(db.leads[lid], actor, now)];
  }

  // ---------------------------------------------------------------- update

  const AllowedFields: set<string> :=
    {"contractValue", "contractDuration", "services", "startDate", "endDate", "isActive", "renewalNotified", "notes"}

  /** `typeof v === 'object'`: objects, arrays and null. */
  predicate IsObjectType(v: Value) {
    v.Object? || v.List? || v.Null?
  }

  /** The value written for an allow-listed key: `services` as JSON when it is an
      object, anything else as given. */
  function UpdateValue(k: string, v: Value): Value {
    if k == "services" && IsObjectType(v) then Str(Stringify(v)) else v
  }

  /** The allow-listed keys of the body with the values they are written as. */
  function AllowedUpdates(body: Body): map<string, Value> {
    map k | k in body.Keys && k in AllowedFields :: UpdateValue(k, body[k])
  }

  /** The `forEach` over `Object.keys(updates)` that pushes the allow-listed fields. */
  method CollectUpdates(body: Body) returns (fields: map<string, Value>)
    ensures fields.Keys == body.Keys * AllowedFields
    ensures forall k :: k in fields ==> fields[k] == UpdateValue(k, body[k])
  {
    fields := map[];
    var pending := body.Keys;
    while pending != {}
      invariant pending <= body.Keys
      invariant fields.Keys == (body.Keys - pending) * AllowedFields
      invariant forall k :: k in fields ==> fields[k] == UpdateValue(k, body[k])
      decreases pending
    {
      var k :| k in pending;
      if k in AllowedFields {
        fields := fields[k := UpdateValue(k, body[k])];
      }
      pending := pending - {k};
    }
  }

  /** The row after a successful update: the collected fields, then the audit stamps. */
  function UpdatedContract(c: Contract, fields: map<string, Value>, actor: Value, now: int): Contract {
    c.(columns := c.columns + fields + map["lastModifiedBy" := actor, "lastModifiedAt" := Int(now)])
  }

  lemma StampsAreNotAllowed()
    ensures "lastModifiedBy" !in AllowedFields && "lastModifiedAt" !in AllowedFields
  {
  }

  /** An update writes each allow-listed key of the body (an object or null under
      `services` as its JSON text), stamps the audit fields and leaves every other
      column alone; an explicit null is written as NULL, not skipped. */
  lemma UpdateFrame(c: Contract, body: Body, user: Option<AuthUser>, now: int)
    ensures var u := UpdatedContract(c, AllowedUpdates(body), Actor(user), now);
      u.id == c.id && u.createdAt == c.createdAt &&
      Col(u.columns, "lastModifiedBy") == Actor(user) && Col(u.columns, "lastModifiedAt") == Int(now) &&
      ("services" in body && IsObjectType(body["services"]) ==>
         Col(u.columns, "services") == Str(Stringify(body["services"]))) &&
      (forall k :: k in body && k in AllowedFields && k != "services" ==> Col(u.columns, k) == body[k]) &&
      (forall k :: (k !in body || k !in AllowedFields) && k != "lastModifiedBy" && k != "lastModifiedAt" ==>
         Col(u.columns, k) == Col(c.columns, k))
  {
    StampsAreNotAllowed();
    var fields := AllowedUpdates(body);
    var u := UpdatedContract(c, fields, Actor(user), now);
    if "services" in body && IsObjectType(body["services"]) {
      assert "services" in AllowedFields && "services" in fields;
    }
    forall k | k in body && k in AllowedFields && k != "services" ensures Col(u.columns, k) == body[k] {
      assert k in fields && k != "lastModifiedBy" && k != "lastModifiedAt";
    }
    forall k | (k !in body || k !in AllowedFields) && k != "lastModifiedBy" && k != "lastModifiedAt"
      ensures Col(u.columns, k) == Col(c.columns, k)
    {
      assert k !in fields;
    }
  }

  /** updateContract: 404 for a missing id, checked first; 400 and no write when no
      allow-listed key is present; otherwise the update of that row only. */
  method UpdateContract(db: Db, id: int, body: Body, user: Option<AuthUser>, now: int) returns (r: Response<JoinedContract>)
    requires db.Valid()
    modifies db`contracts
    ensures db.Valid()
    ensures id !in old(db.contracts) ==> r == NotFound(ContractNotFoundMessage) && db.contracts == old(db.contracts)
    ensures id in old(db.contracts) && body.Keys * AllowedFields == {} ==>
      r == BadRequest(NothingToUpdateMessage) && db.contracts == old(db.contracts)
    ensures id in old(db.contracts) && body.Keys * AllowedFields != {} ==>
      var c := UpdatedContract(old(db.contracts)[id], AllowedUpdates(body), Actor(user), now);
      db.contracts == old(db.contracts)[id := c] && r == Ok(LeftJoinLead(db.leads, c))
  {
    if id < 0 || id !in db.contracts {
      return NotFound(ContractNotFoundMessage);
    }
    var fields := CollectUpdates(body);
    assert fields == AllowedUpdates(body);
    if fields == map[] {
      assert fields.Keys == {};
      return BadRequest(NothingToUpdateMessage);
    }
    var c := UpdatedContract(db.contracts[id], fields, Actor(user), now);
    db.contracts := db.contracts[id := c];
    r := Ok(LeftJoinLead(db.leads, c));
  }

  // ---------------------------------------------------------------- delete

  /** deleteContract: 404 exactly when no row has the id; otherwise that contract goes,
      and with it its service rows (the foreign key's ON DELETE CASCADE). */
  method DeleteContract(db: Db, id: int) returns (r: Response<()>)
    requires db.Valid()
    modifies db`contracts, db`services
    ensures db.Valid()
    ensures r.NotFound? <==> id !in old(db.contracts)
    ensures r.NotFound? ==> r.message == ContractNotFoundMessage && db.services == old(db.services)
    ensures r.Ok? <==> id in old(db.contracts)
    ensures db.contracts == old(db.contracts) - {id}
    ensures r.Ok? ==> db.services == WithoutContract(old(db.services), id)
  {
    if id < 0 || id !in db.contracts {
      return NotFound(ContractNotFoundMessage);
    }
    db.contracts := db.contracts - {id};
    db.services := WithoutContract(db.services, id);
    r := Ok(());
  }

  // ---------------------------------------------------------------- renewals

  const Window: int := 30 * 86400

  /** The WHERE clause of getRenewals: active, with an end date between now and 30
      days from now; `renewalNotified` plays no part. */
  predicate DueForRenewal(c: Contract, now: int) {
    var end := DateColumn(Col(c.columns, "endDate"));
    IsOne(Col(c.columns, "isActive")) && end.Some? &&
    now <= Midnight(end.value) <= now + Window
  }

  /** getRenewals without the join: the due contracts, soonest first. */
  function Renewals(rows: seq<Contract>, now: int): (r: seq<Contract>)
    ensures forall c :: c in r <==> c in rows && DueForRenewal(c, now)
    ensures forall i, j :: 0 <= i < j < |r| ==> EndDay(r[i]) <= EndDay(r[j])
    ensures forall c :: multiset(r)[c] == if DueForRenewal(c, now) then multiset(rows)[c] else 0
  {
    var kept := Filtering.Filter(rows, (c: Contract) => DueForRenewal(c, now));
    Filtering.FilterCounts(rows, (c: Contract) => DueForRenewal(c, now));
    Sorting.SortByMembers(kept, EndDay);
    Sorting.SortBy(kept, EndDay)
  }

  /** getRenewals over the store, joined with each contract's lead: exactly the due
      contracts of the listing, soonest first, each once per listed row. */
  function GetRenewals(db: Db, now: int): (js: seq<JoinedContract>)
    reads db
    ensures forall i :: 0 <= i < |js| ==> js[i].contract in db.ContractRows() && DueForRenewal(js[i].contract, now)
    ensures forall c :: c in db.ContractRows() && DueForRenewal(c, now) ==>
      exists i :: 0 <= i < |js| && js[i].contract == c
  {
    var listed := Renewals(db.ContractRows(), now);
    JoinKeepsContracts(db.leads, listed);
    JoinLeads(db.leads, listed)
  }

  /** The joined renewal rows come soonest end first, each with its lead's columns. */
  lemma RenewalsJoined(db: Db, now: int)
    ensures var js := GetRenewals(db, now);
      (forall i, j :: 0 <= i < j < |js| ==> EndDay(js[i].contract) <= EndDay(js[j].contract)) &&
      (forall i :: 0 <= i < |js| ==> JoinedWith(db.leads, js[i].contract, js[i]))
  {
    var listed := Renewals(db.ContractRows(), now);
    var js := JoinLeads(db.leads, listed);
    assert GetRenewals(db, now) == js;
    assert forall i :: 0 <= i < |js| ==> js[i].contract == listed[i];
  }

  /** A contract's `renewalNotified` flag never decides whether it is listed. */
  lemma NotifiedAreNotExcluded(rows: seq<Contract>, now: int, c: Contract, flag: Value)
    requires c in rows
    requires c.(columns := c.columns["renewalNotified" := flag]) in rows
    ensures c in Renewals(rows, now) <==> c.(columns := c.columns["renewalNotified" := flag]) in Renewals(rows, now)
  {
    var d := c.(columns := c.columns["renewalNotified" := flag]);
    assert Col(d.columns, "endDate") == Col(c.columns, "endDate");
    assert Col(d.columns, "isActive") == Col(c.columns, "isActive");
  }

  /** Every listed contract ends between today and 30 days from today, counted in
      whole days (`DATEDIFF`). */
  lemma RenewalsWithinThirtyDays(rows: seq<Contract>, now: int, c: Contract)
    requires c in Renewals(rows, now)
    ensures var end := DateColumn(Col(c.columns, "endDate"));
      end.Some? && 0 <= CivilDate.EpochDay(end.value) - Today(now) <= 30
  {
    var e := CivilDate.EpochDay(DateColumn(Col(c.columns, "endDate")).value);
    assert now <= e * 86400 <= now + 30 * 86400;
    DayBounds(now, e);
  }

  lemma DayBounds(now: int, e: int)
    requires now <= e * 86400 <= now + 30 * 86400
    ensures 0 <= e - now / 86400 <= 30
  {
    var q := now / 86400;
    assert q * 86400 <= now < q * 86400 + 86400;
    assert e * 86400 < (q + 31) * 86400;
    assert q * 86400 < (e + 1) * 86400;
  }
}
