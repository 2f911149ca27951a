/** The MySQL store the handlers share, held in memory: one map from primary key to
    row per table, the next AUTO_INCREMENT value of each, the users keyed by their
    UUID, and the append-only activity log. */
module Database {
  import opened Values
  import CivilDate
  import Strings
  import Filtering

  /** A row of `leads`: its primary key, its `timestamp` column (seconds since the
      Unix epoch) and its other columns by name. A column that is absent reads as
      NULL. */
  datatype Lead = Lead(id: nat, columns: map<string, Value>, timestamp: int)

  /** A row of `contracts`, in the same shape, with its `createdAt` column. */
  datatype Contract = Contract(id: nat, columns: map<string, Value>, createdAt: int)

  /** A row of `contract_services`; `serviceValue` is in cents. */
  datatype ContractService = ContractService(id: nat, contractId: nat, serviceName: string, serviceValue: int)

  /** A row of `users`; `password` holds the bcrypt hash. */
  datatype User = User(id: string, name: Value, email: Value, password: string, role: string,
                       createdAt: int, lastSignedIn: Option<int>)

  /** The `changes` column of an activity entry: `{before, after}`. */
  datatype Snapshot = Snapshot(before: Value, after: Body)

  /** A row of `activity_log`. */
  datatype ActivityEntry = ActivityEntry(userId: Value, userName: Value, action: string, entityType: string,
                                         entityId: Value, entityName: Value, changes: Snapshot,
                                         description: string)

  /** The value of a column; an absent column is NULL. */
  function Col(columns: map<string, Value>, name: string): Value {
    if name in columns then columns[name] else Null
  }

  /** `WHERE id = ?` with a request value: an integer, or a string of decimal digits,
      names the row with that key. */
  function SqlId(v: Value): Option<nat> {
    match v
    case Int(i) => if i >= 0 then Some(i) else None
    case Str(s) =>
      if s != [] && forall c :: c in s ==> Strings.IsDigit(c) then Some(DigitsValue(s)) else None
    case _ => None
  }

  /** The comparison `column = 1` on a BOOLEAN column. */
  predicate IsOne(v: Value) {
    v == Int(1) || v == Bool(true)
  }

  /** The comparison `column = 0` on a BOOLEAN column. */
  predicate IsZero(v: Value) {
    v == Int(0) || v == Bool(false)
  }

  /** The day a DATE column names, when it holds a valid date. */
  function DateColumn(v: Value): Option<CivilDate.Date> {
    if v.Day? && CivilDate.IsValid(v.date) then Some(v.date) else None
  }

  /** The start of that day in seconds since the Unix epoch (as MySQL compares a
      DATE with `NOW()`). */
  function Midnight(d: CivilDate.Date): int
    requires CivilDate.IsValid(d)
  {
    CivilDate.EpochDay(d) * 86400
  }

  /** The day of the timestamp `now`, as `DATEDIFF` counts it. */
  function Today(now: int): int {
    now / 86400
  }

  /** A contract with the lead columns of `LEFT JOIN leads l ON c.leadId = l.id`. */
  datatype JoinedContract = JoinedContract(contract: Contract, leadName: Value, leadEmail: Value, leadPhone: Value)

  /** `j` is `c` joined with its lead: the lead's name, email and phone when a lead
      has the key `c.leadId` names, and NULL in all three otherwise. */
  predicate JoinedWith(leads: map<nat, Lead>, c: Contract, j: JoinedContract) {
    j.contract == c &&
    (forall k :: k in leads && SqlId(Col(c.columns, "leadId")) == Some(k) ==>
       j.leadName == Col(leads[k].columns, "name") && j.leadEmail == Col(leads[k].columns, "email") &&
       j.leadPhone == Col(leads[k].columns, "phone")) &&
    ((forall k :: k in leads ==> SqlId(Col(c.columns, "leadId")) != Some(k)) ==>
       j.leadName == Null && j.leadEmail == Null && j.leadPhone == Null)
  }

  /** The LEFT JOIN: a contract whose lead is gone gets NULL lead columns. */
  function LeftJoinLead(leads: map<nat, Lead>, c: Contract): (j: JoinedContract)
    ensures j.contract == c
    ensures JoinedWith(leads, c, j)
  {
    var lid := SqlId(Col(c.columns, "leadId"));
    if lid.Some? && lid.value in leads then
      var cols := leads[lid.value].columns;
      JoinedContract(c, Col(cols, "name"), Col(cols, "email"), Col(cols, "phone"))
    else JoinedContract(c, Null, Null, Null)
  }

  /** The LEFT JOIN applied to a listing, row by row. */
  function JoinLeads(leads: map<nat, Lead>, cs: seq<Contract>): (js: seq<JoinedContract>)
    ensures |js| == |cs|
    ensures forall i :: 0 <= i < |cs| ==> js[i].contract == cs[i]
    ensures forall i :: 0 <= i < |cs| ==> JoinedWith(leads, cs[i], js[i])
  {
    seq(|cs|, i requires 0 <= i < |cs| => LeftJoinLead(leads, cs[i]))
  }

  /** The join lists the same contracts as the listing it joins: each joined row's
      contract is listed, and each listed contract has a joined row. */
  lemma JoinKeepsContracts(leads: map<nat, Lead>, cs: seq<Contract>)
    ensures var js := JoinLeads(leads, cs);
      (forall i :: 0 <= i < |js| ==> js[i].contract in cs) &&
      (forall c :: c in cs ==> exists i :: 0 <= i < |js| && js[i].contract == c)
  {
    var js := JoinLeads(leads, cs);
    forall c | c in cs ensures exists i :: 0 <= i < |js| && js[i].contract == c {
      var i :| 0 <= i < |cs| && cs[i] == c;
      assert js[i].contract == c;
    }
  }

  /** `UPDATE leads SET status = 'fechado', lastModifiedBy = ?, lastModifiedAt = NOW()`,
      which both contract controllers run after inserting a contract. */
  function ClosedLead(lead: Lead, actor: Value, now: int): Lead {
    lead.(columns := lead.columns + map["status" := Str("fechado"), "lastModifiedBy" := actor, "lastModifiedAt" := Int(now)])
  }

  /** Closing a lead sets its status and audit stamps and nothing else. */
  lemma ClosedLeadFrame(lead: Lead, actor: Value, now: int)
    ensures var c := ClosedLead(lead, actor, now);
      c.id == lead.id && c.timestamp == lead.timestamp &&
      Col(c.columns, "status") == Str("fechado") && Col(c.columns, "lastModifiedBy") == actor &&
      Col(c.columns, "lastModifiedAt") == Int(now) &&
      forall k :: k != "status" && k != "lastModifiedBy" && k != "lastModifiedAt" ==> Col(c.columns, k) == Col(lead.columns, k)
  {
  }

  // ---------------------------------------------------------------- contract dates, shared by both contract controllers

  /** The months `parseInt(duration)` reads; `None` is NaN. */
  function Months(duration: Value): Option<int> {
    ParseIntText(ToText(duration))
  }

  /** An integer duration is read back exactly, whatever its sign. */
  lemma MonthsOfInteger(n: int)
    ensures Months(Int(n)) == Some(n)
  {
    ParseIntOfDecimal(n);
  }

  /** `end.setMonth(end.getMonth() + months)` from the start date; `None` when the
      start is not a date or the duration reads as NaN (the Invalid Date the INSERT
      then refuses). */
  function EndDate(startDate: Value, duration: Value): (r: Option<CivilDate.Date>)
    ensures r.Some? ==> CivilDate.IsValid(r.value)
  {
    var start := DateColumn(startDate);
    var months := Months(duration);
    if start.Some? && months.Some? then Some(CivilDate.AddMonths(start.value, months.value)) else None
  }

  /** With a date start and an integer duration the end lies that many calendar
      months later, on the same day of the month or spilled into the next month. */
  lemma EndDateIsCalendarMonths(start: CivilDate.Date, n: int)
    requires CivilDate.IsValid(start)
    ensures EndDate(Day(start), Int(n)) == Some(CivilDate.AddMonths(start, n))
    ensures CivilDate.DayNumber(EndDate(Day(start), Int(n)).value) ==
      CivilDate.DayNumber(CivilDate.Date(CivilDate.TargetYear(start.year, start.month, n),
                                         CivilDate.TargetMonth(start.month, n), 1)) + start.day - 1
  {
    MonthsOfInteger(n);
  }

  /** The service rows that survive the ON DELETE CASCADE of contract `id`. */
  function WithoutContract(services: map<nat, ContractService>, id: nat): (m: map<nat, ContractService>)
    ensures forall k :: k in m ==> m[k].contractId != id
    ensures forall k :: k in services && services[k].contractId != id ==> k in m && m[k] == services[k]
    ensures m.Keys <= services.Keys
  {
    map k | k in services && services[k].contractId != id :: services[k]
  }

  /** The sort key of `ORDER BY endDate ASC`. */
  function EndDay(c: Contract): int {
    var end := DateColumn(Col(c.columns, "endDate"));
    if end.Some? then CivilDate.EpochDay(end.value) else 0
  }

  /** The rows of a table with key below `n`, in primary-key order. */
  function TableRows<T>(m: map<nat, T>, n: nat): (rows: seq<T>)
    ensures |rows| <= n
  {
    if n == 0 then []
    else TableRows(m, n - 1) + (if n - 1 in m then [m[n - 1]] else [])
  }

  /** Every row of the table below `n` is listed, and only rows of the table are. */
  lemma {:induction false} TableRowsMembers<T>(m: map<nat, T>, n: nat)
    ensures forall k :: k in m && k < n ==> m[k] in TableRows(m, n)
    ensures forall x :: x in TableRows(m, n) ==> exists k :: k in m && k < n && m[k] == x
  {
    if n > 0 {
      TableRowsMembers(m, n - 1);
    }
  }

  /** The keys of `m` below `n`. */
  function KeysBelow<T>(m: map<nat, T>, n: nat): set<nat> {
    set k | k in m && k < n
  }

  /** The listing has one row per key below `n`: `COUNT(*)` of the table. */
  lemma {:induction false} TableRowsCount<T>(m: map<nat, T>, n: nat)
    ensures |TableRows(m, n)| == |KeysBelow(m, n)|
  {
    if n > 0 {
      TableRowsCount(m, n - 1);
      if n - 1 in m {
        assert KeysBelow(m, n) == KeysBelow(m, n - 1) + {n - 1};
      } else {
        assert KeysBelow(m, n) == KeysBelow(m, n - 1);
      }
    }
  }

  /** The keys below `n` whose rows satisfy `p`. */
  function KeysWhere<T>(m: map<nat, T>, n: nat, p: T -> bool): set<nat> {
    set k | k in m && k < n && p(m[k])
  }

  /** `SELECT COUNT(*) ... WHERE p` over the listing counts the keys whose rows
      satisfy `p`. */
  lemma {:induction false} FilterTableRowsCount<T(!new)>(m: map<nat, T>, n: nat, p: T -> bool)
    ensures |Filtering.Filter(TableRows(m, n), p)| == |KeysWhere(m, n, p)|
  {
    if n > 0 {
      FilterTableRowsCount(m, n - 1, p);
      var last := if n - 1 in m then [m[n - 1]] else [];
      Filtering.FilterAppend(TableRows(m, n - 1), last, p);
      assert TableRows(m, n) == TableRows(m, n - 1) + last;
      FilterAtMostOne(last, p);
      KeysWhereStep(m, n, p);
    }
  }

  lemma FilterAtMostOne<T(!new)>(s: seq<T>, p: T -> bool)
    requires |s| <= 1
    ensures |Filtering.Filter(s, p)| == if s != [] && p(s[0]) then 1 else 0
  {
    if s != [] {
      assert s[1..] == [];
    }
  }

  lemma KeysWhereStep<T>(m: map<nat, T>, n: nat, p: T -> bool)
    requires n > 0
    ensures |KeysWhere(m, n, p)| == |KeysWhere(m, n - 1, p)| + if n - 1 in m && p(m[n - 1]) then 1 else 0
  {
    if n - 1 in m && p(m[n - 1]) {
      assert KeysWhere(m, n, p) == KeysWhere(m, n - 1, p) + {n - 1};
    } else {
      assert KeysWhere(m, n, p) == KeysWhere(m, n - 1, p);
    }
  }


  class Db {
    var leads: map<nat, Lead>
    var nextLeadId: nat
    var contracts: map<nat, Contract>
    var nextContractId: nat
    var services: map<nat, ContractService>
    var nextServiceId: nat
    var users: map<string, User>
    var activityLog: seq<ActivityEntry>

    /** Keys are positive, below the next AUTO_INCREMENT value and equal to the row's
        id; every service row references a contract (the foreign key with ON DELETE
        CASCADE); user ids are their keys and user emails are unique. Leads carry no
        such reference: a contract may keep the id of a deleted lead. */
    ghost predicate Valid()
      reads this
    {
      1 <= nextLeadId && 1 <= nextContractId && 1 <= nextServiceId &&
      (forall k :: k in leads ==> 1 <= k < nextLeadId && leads[k].id == k) &&
      (forall k :: k in contracts ==> 1 <= k < nextContractId && contracts[k].id == k) &&
      (forall k :: k in services ==> 1 <= k < nextServiceId && services[k].id == k) &&
      (forall k :: k in services ==> services[k].contractId in contracts) &&
      (forall u :: u in users ==> users[u].id == u) &&
      (forall u, v :: u in users && v in users && users[u].email == users[v].email ==> u == v)
    }

    /** An empty database, as `schema.sql` leaves it. */
    constructor ()
      ensures Valid()
      ensures leads == map[] && contracts == map[] && services == map[] && users == map[]
      ensures activityLog == []
      ensures nextLeadId == 1 && nextContractId == 1 && nextServiceId == 1
    {
      leads := map[];
      nextLeadId := 1;
      contracts := map[];
      nextContractId := 1;
      services := map[];
      nextServiceId := 1;
      users := map[];
      activityLog := [];
    }

    /** `SELECT * FROM leads`, in primary-key order. */
    function LeadRows(): seq<Lead>
      reads this
    {
      TableRows(leads, nextLeadId)
    }

    /** `SELECT * FROM contracts`, in primary-key order. */
    function ContractRows(): seq<Contract>
      reads this
    {
      TableRows(contracts, nextContractId)
    }

    /** `SELECT * FROM contract_services`, in primary-key order. */
    function ServiceRows(): seq<ContractService>
      reads this
    {
      TableRows(services, nextServiceId)
    }

    /** In a valid store the listings hold exactly the rows of the tables. */
    lemma ListingsAreTables()
      requires Valid()
      ensures forall l :: l in LeadRows() <==> l in leads.Values
      ensures forall c :: c in ContractRows() <==> c in contracts.Values
      ensures forall s :: s in ServiceRows() <==> s in services.Values
      ensures |LeadRows()| == |leads| && |ContractRows()| == |contracts|
    {
      TableRowsMembers(leads, nextLeadId);
      TableRowsMembers(contracts, nextContractId);
      TableRowsMembers(services, nextServiceId);
      TableRowsCount(leads, nextLeadId);
      TableRowsCount(contracts, nextContractId);
      assert KeysBelow(leads, nextLeadId) == leads.Keys;
      assert KeysBelow(contracts, nextContractId) == contracts.Keys;
    }

    /** In a valid store, counting the lead listing's rows that satisfy `p` counts
        the leads that do. */
    lemma LeadsWhere(p: Lead -> bool)
      requires Valid()
      ensures |Filtering.Filter(LeadRows(), p)| == |set k | k in leads && p(leads[k])|
    {
      FilterTableRowsCount(leads, nextLeadId, p);
      assert KeysWhere(leads, nextLeadId, p) == set k | k in leads && p(leads[k]);
    }

    /** The same for the contract listing. */
    lemma ContractsWhere(p: Contract -> bool)
      requires Valid()
      ensures |Filtering.Filter(ContractRows(), p)| == |set k | k in contracts && p(contracts[k])|
    {
      FilterTableRowsCount(contracts, nextContractId, p);
      assert KeysWhere(contracts, nextContractId, p) == set k | k in contracts && p(contracts[k]);
    }
  }
}
