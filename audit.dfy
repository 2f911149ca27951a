/** The audit middleware: after a successful, non-GET response it records who did
    what to which entity in `activity_log`. The entity is inferred from the request
    path and body, and the sentence describing the change is generated from it. */
module Audit {
  import opened Values
  import opened Strings
  import opened Database

  /** The request as the middleware sees it. */
  datatype AuditRequest = AuditRequest(httpMethod: string, path: string, body: Body, user: Option<AuthUser>)

  /** `v || fallback` */
  function OrDefault(v: Value, fallback: string): Value {
    if Truthy(v) then v else Str(fallback)
  }

  /** `req.auditUser`: the user's id (undefined without a user) and name, with
      `'Desconhecido'` when there is no name. */
  datatype AuditUser = AuditUser(id: Value, name: Value)

  function GetAuditUser(user: Option<AuthUser>): (u: AuditUser)
    ensures Truthy(u.name)
    ensures user.Some? && Truthy(user.value.name) ==> u.name == user.value.name
    ensures (user.None? || !Truthy(user.value.name)) ==> u.name == Str("Desconhecido")
    ensures u.id == (if user.Some? then user.value.id else Null)
  {
    AuditUser(if user.Some? then user.value.id else Null,
              OrDefault(if user.Some? then user.value.name else Null, "Desconhecido"))
  }

  // ---------------------------------------------------------------- action

  /** getAction: the HTTP method as the action recorded. */
  function GetAction(httpMethod: string): string {
    match httpMethod
    case "POST" => "create"
    case "PUT" => "update"
    case "PATCH" => "update"
    case "DELETE" => "delete"
    case _ => "unknown"
  }

  /** The verb of the sentence for an action, `atualizou` for any other action. */
  function ActionText(action: string): string {
    match action
    case "create" => "criou"
    case "update" => "modificou"
    case "delete" => "deletou"
    case _ => "atualizou"
  }

  /** From method to verb: POST creates, PUT and PATCH modify, DELETE deletes, and
      every other method (GET, HEAD, OPTIONS, ...) falls through to `atualizou`. */
  lemma MethodVerbs(httpMethod: string)
    ensures GetAction(httpMethod) in {"create", "update", "delete", "unknown"}
    ensures ActionText(GetAction(httpMethod)) == "criou" <==> httpMethod == "POST"
    ensures ActionText(GetAction(httpMethod)) == "modificou" <==> httpMethod == "PUT" || httpMethod == "PATCH"
    ensures ActionText(GetAction(httpMethod)) == "deletou" <==> httpMethod == "DELETE"
    ensures ActionText(GetAction(httpMethod)) == "atualizou" <==> httpMethod !in {"POST", "PUT", "PATCH", "DELETE"}
  {
  }

  // ---------------------------------------------------------------- entity id in the path

  /** `seg` at index `i` is followed by at least one digit: a match of `/seg(\d+)/`. */
  predicate MatchAt(path: string, seg: string, i: int) {
    OccursAt(path, seg, i) && i + |seg| < |path| && IsDigit(path[i + |seg|])
  }

  /** The longest run of digits that `s` starts with (the greedy `\d+`). */
  function DigitRun(s: string): (r: string)
    ensures |r| <= |s| && r == s[..|r|]
    ensures forall c :: c in r ==> IsDigit(c)
    ensures |r| < |s| ==> !IsDigit(s[|r|])
  {
    if s == [] || !IsDigit(s[0]) then []
    else
      var rest := DigitRun(s[1..]);
      assert s[1..][..|rest|] == s[1..|rest| + 1];
      [s[0]] + rest
  }

  /** The leftmost match at or after `i`. */
  function FirstMatch(path: string, seg: string, i: nat): (r: Option<nat>)
    requires i <= |path|
    ensures r.Some? ==> i <= r.value && MatchAt(path, seg, r.value)
    ensures r.Some? ==> forall k :: i <= k < r.value ==> !MatchAt(path, seg, k)
    ensures r.None? ==> forall k :: i <= k <= |path| ==> !MatchAt(path, seg, k)
    decreases |path| - i
  {
    if MatchAt(path, seg, i) then Some(i)
    else if i == |path| then None
    else FirstMatch(path, seg, i + 1)
  }

  /** `path.match(/seg(\d+)/)?.[1]`: the digits after the leftmost `seg` that is
      followed by a digit. */
  function PathId(path: string, seg: string): (r: Option<string>)
    ensures r.Some? <==> exists i | 0 <= i <= |path| :: MatchAt(path, seg, i)
    ensures r.Some? ==> r.value != [] && forall c :: c in r.value ==> IsDigit(c)
    ensures r.Some? ==> exists i | 0 <= i <= |path| ::
      MatchAt(path, seg, i) && (forall k :: 0 <= k < i ==> !MatchAt(path, seg, k)) &&
      r.value == DigitRun(path[i + |seg|..])
  {
    var m := FirstMatch(path, seg, 0);
    if m.Some? then
      var run := DigitRun(path[m.value + |seg|..]);
      assert run != [];
      Some(run)
    else None
  }

  // ---------------------------------------------------------------- entity

  /** What `extractEntityInfo` returns when it recognises the path. */
  datatype EntityInfo = EntityInfo(entityType: string, entityId: Value, entityName: Value)

  /** `idFromPath || body?.id`; a digit string from the path is never falsy. */
  function EntityId(path: string, seg: string, body: Body): Value {
    var fromPath := PathId(path, seg);
    if fromPath.Some? then Str(fromPath.value) else Field(body, "id")
  }

  function ContractName(body: Body): Value {
    var value := Field(body, "contractValue");
    if Truthy(value) then Str("Contrato R$ " + ToText(value)) else Str("Contrato")
  }

  /** extractEntityInfo: leads first, then contracts, then services; `None` (the
      empty object) for any other path. */
  function ExtractEntityInfo(path: string, body: Body): (r: Option<EntityInfo>)
    ensures r.None? <==> !Contains(path, "/leads") && !Contains(path, "/contracts") && !Contains(path, "/services")
    ensures r.Some? ==> Truthy(r.value.entityName)
  {
    if Contains(path, "/leads") then
      Some(EntityInfo("lead", EntityId(path, "/leads/", body), OrDefault(Field(body, "name"), "Lead")))
    else if Contains(path, "/contracts") then
      Some(EntityInfo("contract", EntityId(path, "/contracts/", body), ContractName(body)))
    else if Contains(path, "/services") then
      Some(EntityInfo("service", EntityId(path, "/services/", body), OrDefault(Field(body, "serviceName"), "Serviço")))
    else None
  }

  /** The first segment mentioned decides the type, and without one nothing is
      recognised. */
  lemma EntityTypePrecedence(path: string, body: Body)
    ensures var info := ExtractEntityInfo(path, body);
      (info.Some? <==> Contains(path, "/leads") || Contains(path, "/contracts") || Contains(path, "/services")) &&
      (Contains(path, "/leads") ==> info.value.entityType == "lead") &&
      (!Contains(path, "/leads") && Contains(path, "/contracts") ==> info.value.entityType == "contract") &&
      (!Contains(path, "/leads") && !Contains(path, "/contracts") && Contains(path, "/services") ==>
         info.value.entityType == "service")
  {
  }

  /** The id comes from the path when the segment there is followed by digits, and
      from `body.id` otherwise. */
  lemma EntityIdSource(path: string, seg: string, body: Body)
    ensures (exists i | 0 <= i <= |path| :: MatchAt(path, seg, i)) ==>
      EntityId(path, seg, body).Str? && EntityId(path, seg, body).s != [] &&
      forall c :: c in EntityId(path, seg, body).s ==> IsDigit(c)
    ensures (forall i | 0 <= i <= |path| :: !MatchAt(path, seg, i)) ==> EntityId(path, seg, body) == Field(body, "id")
  {
  }

  /** The recorded name is never falsy: a missing name falls back to the entity's
      default, and a contract with a value is named after it. */
  lemma EntityNames(path: string, body: Body)
    requires ExtractEntityInfo(path, body).Some?
    ensures Truthy(ExtractEntityInfo(path, body).value.entityName)
    ensures var info := ExtractEntityInfo(path, body).value;
      (info.entityType == "lead" ==>
         info.entityName == (if Truthy(Field(body, "name")) then Field(body, "name") else Str("Lead"))) &&
      (info.entityType == "contract" ==>
         info.entityName == (if Truthy(Field(body, "contractValue"))
                             then Str("Contrato R$ " + ToText(Field(body, "contractValue"))) else Str("Contrato"))) &&
      (info.entityType == "service" ==>
         info.entityName == (if Truthy(Field(body, "serviceName")) then Field(body, "serviceName") else Str("Serviço")))
  {
  }

  // ---------------------------------------------------------------- description

  /** generateDescription: `<user> <verb> <type> "<name>"`. */
  function GenerateDescription(action: string, entityType: string, entityName: Value, userName: Value): (d: string)
    ensures StartsWith(d, ToText(userName) + " " + ActionText(action) + " ")
    ensures |d| >= |entityType| + |ToText(entityName)| + 2
    ensures d[|d| - |ToText(entityName)| - 2..] == "\"" + ToText(entityName) + "\""
    ensures var head := ToText(userName) + " " + ActionText(action) + " ";
      |d| == |head| + |entityType| + |ToText(entityName)| + 3 &&
      d[|head|..|head| + |entityType| + 1] == entityType + " "
  {
    var head := ToText(userName) + " " + ActionText(action) + " ";
    var d := head + entityType + " \"" + ToText(entityName) + "\"";
    assert d[..|head|] == head;
    assert d[|head|..|head| + |entityType| + 1] == entityType + " ";
    d
  }

  /** The sentence can be read back: the entity's name is what lies between the
      quotes after the fixed head and the type. */
  lemma DescriptionNameReadBack(action: string, entityType: string, entityName: Value, userName: Value)
    ensures var d := GenerateDescription(action, entityType, entityName, userName);
      var head := ToText(userName) + " " + ActionText(action) + " ";
      d[|head| + |entityType| + 2..|d| - 1] == ToText(entityName)
  {
    var d := GenerateDescription(action, entityType, entityName, userName);
    var tail := d[|d| - |ToText(entityName)| - 2..];
    assert tail[1..|tail| - 1] == ToText(entityName);
  }

  // ---------------------------------------------------------------- logging

  /** The `changes` column: `body.before || null` and the body itself. */
  function Changes(body: Body): Snapshot {
    Snapshot(OrNull(Field(body, "before")), body)
  }

  /** The row logActivity inserts for a recognised entity. */
  function LogEntry(req: AuditRequest, info: EntityInfo): (e: ActivityEntry)
    ensures e.entityType == info.entityType && e.entityId == info.entityId && e.entityName == info.entityName
    ensures e.action == GetAction(req.httpMethod) && e.userId == GetAuditUser(req.user).id
    ensures e.changes.after == req.body && e.changes.before == OrNull(Field(req.body, "before"))
    ensures e.userName == GetAuditUser(req.user).name
    ensures e.description ==
      GenerateDescription(GetAction(req.httpMethod), info.entityType, info.entityName, GetAuditUser(req.user).name)
  {
    var user := GetAuditUser(req.user);
    var action := GetAction(req.httpMethod);
    ActivityEntry(user.id, user.name, action, info.entityType, info.entityId, info.entityName,
                  Changes(req.body), GenerateDescription(action, info.entityType, info.entityName, user.name))
  }

  /** logActivity: nothing for an unrecognised path; otherwise one row, unless the
      insert fails, in which case the error is swallowed and the log is as it was.
      Without a signed-in user the insert always fails, since the driver refuses the
      undefined `userId`; with one, `insertSucceeds` says how the insert went. */
  method LogActivity(db: Db, req: AuditRequest, insertSucceeds: bool)
    requires db.Valid()
    modifies db`activityLog
    ensures db.Valid()
    ensures var info := ExtractEntityInfo(req.path, req.body);
      db.activityLog == old(db.activityLog) +
        (if info.Some? && req.user.Some? && insertSucceeds then [LogEntry(req, info.value)] else [])
  {
    var info := ExtractEntityInfo(req.path, req.body);
    if info.None? {
      return;
    }
    if req.user.Some? && insertSucceeds {
      db.activityLog := db.activityLog + [LogEntry(req, info.value)];
    }
  }

  /** The gate of the wrapped `res.send`. */
  predicate Audited(statusCode: int, httpMethod: string) {
    200 <= statusCode < 300 && httpMethod != "GET"
  }

  /** The wrapped `res.send`: logs a 2xx response to anything but GET, then sends
      `data` unchanged whether or not the log was written. */
  method Send(db: Db, req: AuditRequest, statusCode: int, data: Value, insertSucceeds: bool) returns (sent: Value)
    requires db.Valid()
    modifies db`activityLog
    ensures db.Valid()
    ensures sent == data
    ensures var info := ExtractEntityInfo(req.path, req.body);
      db.activityLog == old(db.activityLog) +
        (if Audited(statusCode, req.httpMethod) && info.Some? && req.user.Some? && insertSucceeds then [LogEntry(req, info.value)] else [])
  {
    if 200 <= statusCode && statusCode < 300 {
      if req.httpMethod != "GET" {
        LogActivity(db, req, insertSucceeds);
      }
    }
    sent := data;
  }

  /** A logged entry's sentence names the acting user and the verb of its action. */
  lemma EntrySentence(req: AuditRequest, info: EntityInfo)
    ensures var e := LogEntry(req, info);
      StartsWith(e.description, ToText(e.userName) + " " + ActionText(GetAction(req.httpMethod)) + " ") &&
      Truthy(e.userName)
  {
  }
}
