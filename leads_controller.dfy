/** The lead handlers: create (with the geolocation lookup as an oracle), the
    allow-listed partial update, delete, the filtered listing and the plain-text
    exports. */
module LeadsController {
  import opened Values
  import opened Strings
  import opened Database
  import Sorting
  import Filtering

  const RequiredFieldsMessage := "Campos obrigatórios: name, email, phone, score, classification"
  const LeadNotFoundMessage := "Lead não encontrado"
  const NothingToUpdateMessage := "Nenhum campo válido para atualizar"
  const InvalidExportMessage := "Tipo de exportação inválido"

  /** The fields createLead insists on, stored as given. */
  const RequiredFields: set<string> := {"name", "email", "phone", "score", "classification"}

  /** The fields createLead stores as `value || null`. */
  const OptionalFields: set<string> :=
    {"instagram", "question1", "question2", "question3", "question4", "question5", "question6",
     "question7", "ipAddress"}

  /** The five location columns, filled from the lookup. */
  const LocationColumns: set<string> :=
    {"locationCity", "locationState", "locationCountry", "locationLatitude", "locationLongitude"}

  /** The twenty columns the INSERT of createLead names. */
  const InsertedColumns: set<string> := RequiredFields + OptionalFields + LocationColumns + {"status"}

  /** The fields updateLead accepts; any other key of the body is ignored. */
  const AllowedFields: set<string> :=
    {"name", "email", "phone", "instagram", "score", "classification", "status", "observations",
     "question1", "question2", "question3", "question4", "question5", "question6", "question7"}

  /** What a successful ip-api.com lookup yields. */
  datatype GeoData = GeoData(city: Value, state: Value, country: Value, latitude: Value, longitude: Value)

  // ---------------------------------------------------------------- create

  predicate HasRequiredFields(body: Body) {
    Truthy(Field(body, "name")) && Truthy(Field(body, "email")) && Truthy(Field(body, "phone")) &&
    Truthy(Field(body, "score")) && Truthy(Field(body, "classification"))
  }

  /** The lookup runs only when an IP address is given; it may yield nothing. */
  function Geolocation(body: Body, geolocate: Value -> Option<GeoData>): Option<GeoData> {
    var ip := Field(body, "ipAddress");
    if Truthy(ip) then geolocate(ip) else None
  }

  /** The value the INSERT of createLead gives column `k`; `g` is the lookup result,
      all-NULL when there is none (`geoData?.x || null`). */
  function InsertedValue(body: Body, g: GeoData, k: string): Value {
    if k == "status" then Str("novo")
    else if k == "locationCity" then OrNull(g.city)
    else if k == "locationState" then OrNull(g.state)
    else if k == "locationCountry" then OrNull(g.country)
    else if k == "locationLatitude" then OrNull(g.latitude)
    else if k == "locationLongitude" then OrNull(g.longitude)
    else if k in RequiredFields then Field(body, k)
    else OrNull(Field(body, k))
  }

  /** The columns the INSERT of createLead writes; all others are NULL. */
  function NewLeadColumns(body: Body, geo: Option<GeoData>): map<string, Value> {
    var g := if geo.Some? then geo.value else GeoData(Null, Null, Null, Null, Null);
    map k | k in InsertedColumns :: InsertedValue(body, g, k)
  }

  /** All five required fields must be truthy, so a score of 0 is refused. */
  lemma RequiredFieldsAreAllNeeded(body: Body)
    ensures HasRequiredFields(body) <==> forall k :: k in RequiredFields ==> Truthy(Field(body, k))
    ensures Field(body, "score") == Int(0) ==> !HasRequiredFields(body)
  {
  }

  /** A new lead has status `novo`, keeps its required fields as given and stores
      every falsy optional answer, instagram or IP as NULL. */
  lemma NewLeadInitialState(body: Body, geo: Option<GeoData>)
    ensures Col(NewLeadColumns(body, geo), "status") == Str("novo")
    ensures forall k :: k in RequiredFields ==> Col(NewLeadColumns(body, geo), k) == Field(body, k)
    ensures forall k :: k in OptionalFields ==> Col(NewLeadColumns(body, geo), k) == OrNull(Field(body, k))
    ensures forall k :: k in OptionalFields && !Truthy(Field(body, k)) ==> Col(NewLeadColumns(body, geo), k) == Null
  {
    forall k | k in RequiredFields ensures Col(NewLeadColumns(body, geo), k) == Field(body, k) {
      RequiredColumn(body, geo, k);
    }
    forall k | k in OptionalFields ensures Col(NewLeadColumns(body, geo), k) == OrNull(Field(body, k)) {
      OptionalColumn(body, geo, k);
    }
  }

  lemma RequiredColumn(body: Body, geo: Option<GeoData>, k: string)
    requires k in RequiredFields
    ensures Col(NewLeadColumns(body, geo), k) == Field(body, k)
  {
    assert k in InsertedColumns;
    RequiredIsPlain(k);
  }

  lemma OptionalColumn(body: Body, geo: Option<GeoData>, k: string)
    requires k in OptionalFields
    ensures Col(NewLeadColumns(body, geo), k) == OrNull(Field(body, k))
  {
    assert k in InsertedColumns;
    OptionalIsPlain(k);
  }

  lemma RequiredIsPlain(k: string)
    requires k in RequiredFields
    ensures k != "status" && k !in LocationColumns
  {
  }

  lemma OptionalIsPlain(k: string)
    requires k in OptionalFields
    ensures k != "status" && k !in LocationColumns && k !in RequiredFields
  {
  }

  /** Without an IP address, or when the lookup yields nothing, every location
      column is NULL. */
  lemma NoLocationWithoutLookup(body: Body, geolocate: Value -> Option<GeoData>)
    requires !Truthy(Field(body, "ipAddress")) || geolocate(Field(body, "ipAddress")).None?
    ensures forall k :: k in LocationColumns ==> Col(NewLeadColumns(body, Geolocation(body, geolocate)), k) == Null
  {
  }

  /** createLead: 400 unless the five required fields are truthy; otherwise the lookup
      runs when an IP is given (its failure only leaves the location NULL) and the
      new row, stamped with `now`, is inserted under the next id and returned. */
  method CreateLead(db: Db, body: Body, geolocate: Value -> Option<GeoData>, now: int) returns (r: Response<Lead>)
    requires db.Valid()
    modifies db`leads, db`nextLeadId
    ensures db.Valid()
    ensures !HasRequiredFields(body) ==>
      r == BadRequest(RequiredFieldsMessage) && db.leads == old(db.leads) && db.nextLeadId == old(db.nextLeadId)
    ensures HasRequiredFields(body) ==>
      var lead := Lead(old(db.nextLeadId), NewLeadColumns(body, Geolocation(body, geolocate)), now);
      r == Created(lead) && db.leads == old(db.leads)[lead.id := lead] && db.nextLeadId == old(db.nextLeadId) + 1
  {
    if !HasRequiredFields(body) {
      return BadRequest(RequiredFieldsMessage);
    }
    var geo: Option<GeoData> := None;
    var ip := Field(body, "ipAddress");
    if Truthy(ip) {
      geo := geolocate(ip);
    }
    var id := db.nextLeadId;
    var lead := Lead(id, NewLeadColumns(body, geo), now);
    db.leads := db.leads[id := lead];
    db.nextLeadId := id + 1;
    r := Created(lead);
  }

  // ---------------------------------------------------------------- update

  /** The allow-listed part of the body: what the UPDATE writes. */
  function AllowedUpdates(body: Body): map<string, Value> {
    map k | k in body.Keys && k in AllowedFields :: body[k]
  }

  /** The `forEach` over the body's keys that collects the allow-listed ones. */
  method CollectUpdates(body: Body) returns (fields: map<string, Value>)
    ensures fields.Keys == body.Keys * AllowedFields
    ensures forall k :: k in fields ==> fields[k] == body[k]
  {
    fields := map[];
    var pending := body.Keys;
    while pending != {}
      invariant pending <= body.Keys
      invariant fields.Keys == (body.Keys - pending) * AllowedFields
      invariant forall k :: k in fields ==> fields[k] == body[k]
      decreases pending
    {
      var k :| k in pending;
      if k in AllowedFields {
        fields := fields[k := body[k]];
      }
      pending := pending - {k};
    }
  }

  /** The row after a successful update: the collected fields, then the audit stamps. */
  function UpdatedLead(lead: Lead, fields: map<string, Value>, actor: Value, now: int): Lead {
    lead.(columns := lead.columns + fields + map["lastModifiedBy" := actor, "lastModifiedAt" := Int(now)])
  }

  /** An update writes the allow-listed fields of the body and the two audit stamps;
      every other column, the id and the timestamp are unchanged. */
  lemma UpdateFrame(lead: Lead, body: Body, user: Option<AuthUser>, now: int)
    ensures var u := UpdatedLead(lead, AllowedUpdates(body), Actor(user), now);
      u.id == lead.id && u.timestamp == lead.timestamp &&
      Col(u.columns, "lastModifiedBy") == Actor(user) && Truthy(Actor(user)) &&
      Col(u.columns, "lastModifiedAt") == Int(now) &&
      (forall k :: k in body && k in AllowedFields ==> Col(u.columns, k) == body[k]) &&
      (forall k :: (k !in body || k !in AllowedFields) && k != "lastModifiedBy" && k != "lastModifiedAt" ==>
         Col(u.columns, k) == Col(lead.columns, k))
  {
    ActorPrecedence(user);
    StampsAreNotAllowed();
    var fields := AllowedUpdates(body);
    var u := UpdatedLead(lead, fields, Actor(user), now);
    forall k | k in body && k in AllowedFields ensures Col(u.columns, k) == body[k] {
      assert k in fields && k != "lastModifiedBy" && k != "lastModifiedAt";
    }
    forall k | (k !in body || k !in AllowedFields) && k != "lastModifiedBy" && k != "lastModifiedAt"
      ensures Col(u.columns, k) == Col(lead.columns, k)
    {
      assert k !in fields;
    }
  }

  lemma StampsAreNotAllowed()
    ensures "lastModifiedBy" !in AllowedFields && "lastModifiedAt" !in AllowedFields
  {
  }

  /** updateLead: 404 for a missing id (checked before the body is looked at); 400
      and no write when no allow-listed field remains; otherwise the fields and the
      audit stamps are written to that row only. */
  method UpdateLead(db: Db, id: int, body: Body, user: Option<AuthUser>, now: int) returns (r: Response<Lead>)
    requires db.Valid()
    modifies db`leads
    ensures db.Valid()
    ensures id !in old(db.leads) ==> r == NotFound(LeadNotFoundMessage) && db.leads == old(db.leads)
    ensures id in old(db.leads) && AllowedUpdates(body) == map[] ==>
      r == BadRequest(NothingToUpdateMessage) && db.leads == old(db.leads)
    ensures id in old(db.leads) && AllowedUpdates(body) != map[] ==>
      var lead := UpdatedLead(old(db.leads)[id], AllowedUpdates(body), Actor(user), now);
      db.leads == old(db.leads)[id := lead] && r == Ok(lead)
  {
    var actor := Actor(user);
    if id < 0 || id !in db.leads {
      return NotFound(LeadNotFoundMessage);
    }
    var fields := CollectUpdates(body);
    assert fields == AllowedUpdates(body);
    if fields == map[] {
      return BadRequest(NothingToUpdateMessage);
    }
    var lead := UpdatedLead(db.leads[id], fields, actor, now);
    db.leads := db.leads[id := lead];
    r := Ok(lead);
  }

  // ---------------------------------------------------------------- delete

  /** deleteLead: 404 exactly when no row has the id; otherwise that row alone goes
      (contracts keep their `leadId`). */
  method DeleteLead(db: Db, id: int) returns (r: Response<()>)
    requires db.Valid()
    modifies db`leads
    ensures db.Valid()
    ensures r.NotFound? <==> id !in old(db.leads)
    ensures r.NotFound? ==> r.message == LeadNotFoundMessage
    ensures r.Ok? <==> id in old(db.leads)
    ensures db.leads == old(db.leads) - {id}
  {
    if id < 0 || id !in db.leads {
      return NotFound(LeadNotFoundMessage);
    }
    db.leads := db.leads - {id};
    r := Ok(());
  }

  // ---------------------------------------------------------------- listing

  /** The query string of the listing; an absent parameter is "" (both are falsy). */
  datatype LeadQuery = LeadQuery(classification: string, status: string, search: string)

  const AllLeads := LeadQuery("", "", "")

  /** `column LIKE '%term%'`: NULL never matches. */
  predicate ColumnContains(v: Value, term: string) {
    v != Null && Contains(ToText(v), term)
  }

  /** The WHERE clause the listing builds: each given parameter adds one condition. */
  predicate MatchesQuery(l: Lead, q: LeadQuery) {
    (q.classification != "" ==> Col(l.columns, "classification") == Str(q.classification)) &&
    (q.status != "" ==> Col(l.columns, "status") == Str(q.status)) &&
    (q.search != "" ==>
       ColumnContains(Col(l.columns, "name"), q.search) ||
       ColumnContains(Col(l.columns, "email"), q.search) ||
       ColumnContains(Col(l.columns, "phone"), q.search))
  }

  /** The sort key of `ORDER BY timestamp DESC`. */
  function NewestFirst(l: Lead): int {
    -l.timestamp
  }

  /** getAllLeads: exactly the rows meeting every given filter, newest first. */
  function ListLeads(rows: seq<Lead>, q: LeadQuery): (r: seq<Lead>)
    ensures forall l :: l in r <==> l in rows && MatchesQuery(l, q)
    ensures multiset(r) == multiset(Filtering.Filter(rows, l => MatchesQuery(l, q)))
    ensures forall i, j :: 0 <= i < j < |r| ==> r[i].timestamp >= r[j].timestamp
  {
    var kept := Filtering.Filter(rows, l => MatchesQuery(l, q));
    var sorted := Sorting.SortBy(kept, NewestFirst);
    ListingMembers(rows, q, kept, sorted);
    NewestFirstOrder(sorted);
    sorted
  }

  lemma ListingMembers(rows: seq<Lead>, q: LeadQuery, kept: seq<Lead>, sorted: seq<Lead>)
    requires kept == Filtering.Filter(rows, l => MatchesQuery(l, q))
    requires sorted == Sorting.SortBy(kept, NewestFirst)
    ensures forall l :: l in sorted <==> l in rows && MatchesQuery(l, q)
  {
    Sorting.SortByMembers(kept, NewestFirst);
  }

  lemma NewestFirstOrder(s: seq<Lead>)
    requires Sorting.SortedBy(s, NewestFirst)
    ensures forall i, j :: 0 <= i < j < |s| ==> s[i].timestamp >= s[j].timestamp
  {
    forall i, j | 0 <= i < j < |s| ensures s[i].timestamp >= s[j].timestamp {
      assert NewestFirst(s[i]) <= NewestFirst(s[j]);
    }
  }

  /** Over the store, the listing holds exactly the stored leads that meet the
      filters; with no parameter it holds every lead. */
  lemma ListingOfStore(db: Db, q: LeadQuery)
    requires db.Valid()
    ensures forall l :: l in ListLeads(db.LeadRows(), q) <==> l in db.leads.Values && MatchesQuery(l, q)
    ensures forall l :: l in ListLeads(db.LeadRows(), AllLeads) <==> l in db.leads.Values
    ensures |ListLeads(db.LeadRows(), AllLeads)| == |db.leads|
  {
    db.ListingsAreTables();
    var rows := db.LeadRows();
    Filtering.FilterAll(rows, l => MatchesQuery(l, AllLeads));
    var r := ListLeads(rows, AllLeads);
    assert |r| == |multiset(r)| == |multiset(rows)| == |rows|;
  }

  // ---------------------------------------------------------------- export

  predicate IsExportType(kind: string) {
    kind == "emails" || kind == "phones" || kind == "instagram" || kind == "locations"
  }

  /** The rows an export keeps: `instagram IS NOT NULL`, `locationCity IS NOT NULL`. */
  predicate ExportKeeps(kind: string, l: Lead) {
    if kind == "instagram" then Col(l.columns, "instagram") != Null
    else if kind == "locations" then Col(l.columns, "locationCity") != Null
    else true
  }

  /** The line an export writes for one row (`join` writes NULL as the empty line). */
  function ExportLine(kind: string, l: Lead): string {
    if kind == "emails" then ItemText(Col(l.columns, "email"))
    else if kind == "phones" then ItemText(Col(l.columns, "phone"))
    else if kind == "instagram" then ItemText(Col(l.columns, "instagram"))
    else
      ToText(Col(l.columns, "name")) + " - " + ToText(Col(l.columns, "locationCity")) + ", " +
      ToText(Col(l.columns, "locationState")) + ", " + ToText(Col(l.columns, "locationCountry"))
  }

  /** The rows behind an export, in the listing's default order. */
  function ExportRows(rows: seq<Lead>, kind: string): seq<Lead> {
    Filtering.Filter(ListLeads(rows, AllLeads), l => ExportKeeps(kind, l))
  }

  /** One line per exported row, in order. */
  function ExportLines(rows: seq<Lead>, kind: string): (lines: seq<string>) {
    var kept := ExportRows(rows, kind);
    seq(|kept|, i requires 0 <= i < |kept| => ExportLine(kind, kept[i]))
  }

  function ExportFileName(kind: string): string {
    if kind == "emails" then "emails.txt"
    else if kind == "phones" then "telefones.txt"
    else if kind == "instagram" then "instagram.txt"
    else "localizacoes.txt"
  }

  datatype ExportFile = ExportFile(filename: string, contentType: string, content: string)

  /** exportData: the newline-joined lines as a text attachment, or 400 for an
      unknown type. */
  function ExportData(rows: seq<Lead>, kind: string): (r: Response<ExportFile>)
    ensures r.Ok? || r == BadRequest(InvalidExportMessage)
    ensures r.Ok? <==> IsExportType(kind)
    ensures r.Ok? ==> r.value.contentType == "text/plain; charset=utf-8"
    ensures r.Ok? ==> r.value.content == Join(ExportLines(rows, kind), '\n')
    ensures kind == "emails" ==> r.Ok? && r.value.filename == "emails.txt"
    ensures kind == "phones" ==> r.Ok? && r.value.filename == "telefones.txt"
    ensures kind == "instagram" ==> r.Ok? && r.value.filename == "instagram.txt"
    ensures kind == "locations" ==> r.Ok? && r.value.filename == "localizacoes.txt"
  {
    if IsExportType(kind) then
      Ok(ExportFile(ExportFileName(kind), "text/plain; charset=utf-8", Join(ExportLines(rows, kind), '\n')))
    else BadRequest(InvalidExportMessage)
  }

  /** The e-mail and phone exports have one line per lead; the instagram and location
      exports only rows with a non-NULL instagram or city, each from the listing. */
  lemma ExportRowsSelection(rows: seq<Lead>, kind: string)
    requires IsExportType(kind)
    ensures forall l :: l in ExportRows(rows, kind) <==> l in rows && ExportKeeps(kind, l)
    ensures kind == "emails" || kind == "phones" ==> |ExportLines(rows, kind)| == |rows|
    ensures kind == "instagram" ==> forall l :: l in ExportRows(rows, kind) ==> Col(l.columns, "instagram") != Null
    ensures kind == "locations" ==> forall l :: l in ExportRows(rows, kind) ==> Col(l.columns, "locationCity") != Null
  {
    var listing := ListLeads(rows, AllLeads);
    if kind == "emails" || kind == "phones" {
      Filtering.FilterAll(listing, l => ExportKeeps(kind, l));
      Filtering.FilterAll(rows, l => MatchesQuery(l, AllLeads));
      assert |listing| == |multiset(listing)| == |multiset(rows)| == |rows|;
    }
  }

  /** `ORDER BY timestamp DESC` over the kept rows: each kept row appears as often as
      it is stored, and the newest comes first. */
  lemma ExportRowsOrder(rows: seq<Lead>, kind: string)
    ensures forall l :: multiset(ExportRows(rows, kind))[l] == if ExportKeeps(kind, l) then multiset(rows)[l] else 0
    ensures var e := ExportRows(rows, kind); forall i, j :: 0 <= i < j < |e| ==> e[i].timestamp >= e[j].timestamp
  {
    ExportCounts(rows, kind);
    ExportNewestFirst(rows, kind);
  }

  lemma ExportCounts(rows: seq<Lead>, kind: string)
    ensures forall l :: multiset(ExportRows(rows, kind))[l] == if ExportKeeps(kind, l) then multiset(rows)[l] else 0
  {
    var listing := ListLeads(rows, AllLeads);
    Filtering.FilterAll(rows, l => MatchesQuery(l, AllLeads));
    assert multiset(listing) == multiset(rows);
    Filtering.FilterCounts(listing, l => ExportKeeps(kind, l));
  }

  lemma ExportNewestFirst(rows: seq<Lead>, kind: string)
    ensures var e := ExportRows(rows, kind); forall i, j :: 0 <= i < j < |e| ==> e[i].timestamp >= e[j].timestamp
  {
    var listing := ListLeads(rows, AllLeads);
    assert Filtering.Ascending(listing, NewestFirst);
    Filtering.FilterKeepsSorted(listing, l => ExportKeeps(kind, l), NewestFirst);
    var e := ExportRows(rows, kind);
    assert Filtering.Ascending(e, NewestFirst);
    forall i, j | 0 <= i < j < |e| ensures e[i].timestamp >= e[j].timestamp {
      assert NewestFirst(e[i]) <= NewestFirst(e[j]);
    }
  }

  /** The instagram export is the instagram text of the non-NULL rows, in the order
      of the listing. */
  lemma InstagramExportOrder(rows: seq<Lead>)
    ensures var kept := ExportRows(rows, "instagram");
      ExportLines(rows, "instagram") == seq(|kept|, i requires 0 <= i < |kept| => ToText(Col(kept[i].columns, "instagram")))
  {
    var kept := ExportRows(rows, "instagram");
    forall i | 0 <= i < |kept| ensures ExportLine("instagram", kept[i]) == ToText(Col(kept[i].columns, "instagram")) {
      assert kept[i] in kept;
    }
  }

  /** When no line holds a newline and there is at least one, splitting the file on
      newlines gives the lines back. */
  lemma ExportSplitsIntoLines(rows: seq<Lead>, kind: string)
    requires IsExportType(kind)
    requires |ExportLines(rows, kind)| >= 1
    requires forall line :: line in ExportLines(rows, kind) ==> '\n' !in line
    ensures Split(ExportData(rows, kind).value.content, '\n') == ExportLines(rows, kind)
  {
    SplitJoin(ExportLines(rows, kind), '\n');
  }
}
