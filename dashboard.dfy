/** The dashboard statistics: counts and sums over the leads and contracts tables,
    the two lead breakdowns and the zero-guarded conversion rate. */
module Dashboard {
  import opened Values
  import opened Database
  import Filtering
  import Grouping
  import Sorting
  import ContractsController

  /** One `{name, value}` pair of a breakdown. */
  datatype NameValue = NameValue(name: Value, value: nat)

  /** The response data of getStats. `conversionRate` is the exact ratio; rounding to
      two decimals is left out. */
  datatype Stats = Stats(
    totalLeads: nat,
    activeContracts: nat,
    totalValue: int,
    renewalCount: nat,
    recentLeads: nat,
    conversionRate: real,
    leadsByClassification: seq<NameValue>,
    leadsByStatus: seq<NameValue>)

  function Classification(l: Lead): Value {
    Col(l.columns, "classification")
  }

  function Status(l: Lead): Value {
    Col(l.columns, "status")
  }

  /** `GROUP BY key` with `COUNT(*)`, reshaped to `{name, value}` pairs. */
  function Breakdown(rows: seq<Lead>, key: Lead -> Value): (r: seq<NameValue>)
    ensures |r| == |Grouping.Keys(rows, key)|
    ensures forall i :: 0 <= i < |r| ==>
      r[i].name == Grouping.Keys(rows, key)[i] && r[i].value == Grouping.Count(rows, key, r[i].name)
  {
    Pairs(Grouping.Keys(rows, key), rows, key)
  }

  function Pairs(ks: seq<Value>, rows: seq<Lead>, key: Lead -> Value): (r: seq<NameValue>)
    ensures |r| == |ks|
    ensures forall i :: 0 <= i < |r| ==> r[i].name == ks[i] && r[i].value == Grouping.Count(rows, key, ks[i])
  {
    seq(|ks|, i requires 0 <= i < |ks| => NameValue(ks[i], Grouping.Count(rows, key, ks[i])))
  }

  /** The values of a breakdown, added up. */
  function SumValues(pairs: seq<NameValue>): nat {
    if pairs == [] then 0 else SumValues(pairs[..|pairs| - 1]) + pairs[|pairs| - 1].value
  }

  lemma {:induction false} PairsTotal(ks: seq<Value>, rows: seq<Lead>, key: Lead -> Value)
    ensures SumValues(Pairs(ks, rows, key)) == Grouping.TotalCount(ks, rows, key)
  {
    if ks != [] {
      var init := ks[..|ks| - 1];
      PairsTotal(init, rows, key);
      assert Pairs(ks, rows, key)[..|ks| - 1] == Pairs(init, rows, key);
    }
  }

  /** A breakdown loses no lead: its values add up to the number of leads, each group
      is listed once, and every lead's group is listed. */
  lemma {:induction false} BreakdownCoversAll(rows: seq<Lead>, key: Lead -> Value)
    ensures SumValues(Breakdown(rows, key)) == |rows|
    ensures forall i, j :: 0 <= i < j < |Breakdown(rows, key)| ==> Breakdown(rows, key)[i].name != Breakdown(rows, key)[j].name
    ensures forall l :: l in rows ==> exists i :: 0 <= i < |Breakdown(rows, key)| && Breakdown(rows, key)[i].name == key(l)
    ensures forall p :: p in Breakdown(rows, key) ==> p.value > 0
  {
    var ks := Grouping.Keys(rows, key);
    PairsTotal(ks, rows, key);
    Grouping.GroupCountsCoverAll(rows, key);
    var b := Breakdown(rows, key);
    forall l | l in rows ensures exists i :: 0 <= i < |b| && b[i].name == key(l) {
      var j :| 0 <= j < |rows| && rows[j] == l;
      assert key(rows[j]) in ks;
      var i :| 0 <= i < |ks| && ks[i] == key(l);
      assert b[i].name == key(l);
    }
    forall p | p in b ensures p.value > 0 {
      var i :| 0 <= i < |b| && b[i] == p;
      assert ks[i] in ks;
    }
  }

  // ---------------------------------------------------------------- scalar counts

  predicate IsActiveContract(c: Contract) {
    IsOne(Col(c.columns, "isActive"))
  }

  /** A contract's `contractValue` as `SUM` adds it: NULL (and any non-number) adds nothing. */
  function ContractValue(c: Contract): int {
    var v := Col(c.columns, "contractValue");
    if v.Int? then v.i else 0
  }

  function SumContractValues(cs: seq<Contract>): int {
    if cs == [] then 0 else SumContractValues(cs[..|cs| - 1]) + ContractValue(cs[|cs| - 1])
  }

  /** What an active contract adds to the total; an inactive one adds nothing. */
  function ActiveValue(c: Contract): int {
    if IsActiveContract(c) then ContractValue(c) else 0
  }

  /** The total over the whole listing, counting only the active contracts' values. */
  function SumActiveValues(cs: seq<Contract>): int {
    if cs == [] then 0 else SumActiveValues(cs[..|cs| - 1]) + ActiveValue(cs[|cs| - 1])
  }

  /** `SUM(contractValue) ... WHERE isActive = 1` is the total of the active values
      over all contracts. */
  lemma {:induction false} SumOfActive(cs: seq<Contract>)
    ensures SumContractValues(Filtering.Filter(cs, IsActiveContract)) == SumActiveValues(cs)
  {
    if cs != [] {
      var init, last := cs[..|cs| - 1], cs[|cs| - 1];
      assert cs == init + [last];
      var kept, tail := Filtering.Filter(init, IsActiveContract), Filtering.Filter([last], IsActiveContract);
      Filtering.FilterAppend(init, [last], IsActiveContract);
      assert Filtering.Filter(cs, IsActiveContract) == kept + tail;
      FilterOne(last);
      SumAppend(kept, tail);
      SumOfActive(init);
      assert SumActiveValues(cs) == SumActiveValues(init) + ActiveValue(last);
    }
  }

  /** One contract passes the active filter exactly when it is active. */
  lemma FilterOne(c: Contract)
    ensures SumContractValues(Filtering.Filter([c], IsActiveContract)) == ActiveValue(c)
    ensures |Filtering.Filter([c], IsActiveContract)| <= 1
  {
    assert [c][1..] == [];
    if IsActiveContract(c) {
      assert Filtering.Filter([c], IsActiveContract) == [c];
      assert [c][..0] == [];
    } else {
      assert Filtering.Filter([c], IsActiveContract) == [];
    }
  }

  /** Appending at most one contract adds its value to the total. */
  lemma SumAppend(xs: seq<Contract>, ys: seq<Contract>)
    requires |ys| <= 1
    ensures SumContractValues(xs + ys) == SumContractValues(xs) + SumContractValues(ys)
  {
    if ys == [] {
      assert xs + ys == xs;
    } else {
      assert (xs + ys)[..|xs + ys| - 1] == xs;
      assert ys[..0] == [];
    }
  }

  predicate IsRecent(l: Lead, now: int) {
    l.timestamp >= now - 7 * 86400
  }

  predicate IsClosed(l: Lead) {
    Status(l) == Str("fechado")
  }

  /** `(closed / total) * 100` when there are leads, 0 otherwise. */
  function ConversionRate(closed: nat, total: nat): (rate: real)
    requires closed <= total
    ensures total == 0 ==> rate == 0.0
    ensures 0.0 <= rate <= 100.0
    ensures total > 0 && closed == total ==> rate == 100.0
    ensures total > 0 ==> rate * (total as real) == (closed as real) * 100.0
  {
    if total > 0 then ((closed as real) / (total as real)) * 100.0 else 0.0
  }

  /** getStats over a lead listing and a contract listing at time `now`. */
  function ComputeStats(leads: seq<Lead>, contracts: seq<Contract>, now: int): (s: Stats)
    ensures s.totalLeads == |leads|
    ensures s.recentLeads <= s.totalLeads
    ensures s.renewalCount <= s.activeContracts <= |contracts|
    ensures 0.0 <= s.conversionRate <= 100.0
    ensures s.totalValue == SumActiveValues(contracts)
  {
    var active := Filtering.Filter(contracts, IsActiveContract);
    SumOfActive(contracts);
    var renewals := Filtering.Filter(contracts, (c: Contract) => ContractsController.DueForRenewal(c, now));
    var closed := Filtering.Filter(leads, IsClosed);
    RenewalsAreActive(contracts, now);
    Stats(
      |leads|,
      |active|,
      SumContractValues(active),
      |renewals|,
      |Filtering.Filter(leads, (l: Lead) => IsRecent(l, now))|,
      ConversionRate(|closed|, |leads|),
      Breakdown(leads, Classification),
      Breakdown(leads, Status))
  }

  /** The due contracts are among the active ones, so there are no more of them. */
  lemma RenewalsAreActive(contracts: seq<Contract>, now: int)
    ensures |Filtering.Filter(contracts, (c: Contract) => ContractsController.DueForRenewal(c, now))| <=
            |Filtering.Filter(contracts, IsActiveContract)|
  {
    var due := (c: Contract) => ContractsController.DueForRenewal(c, now);
    Filtering.FilterFilter(contracts, IsActiveContract, due);
    assert forall c :: due(c) ==> IsActiveContract(c);
    var both := (c: Contract) => IsActiveContract(c) && due(c);
    assert Filtering.Filter(contracts, both) == Filtering.Filter(contracts, due) by {
      FilterSame(contracts, both, due);
    }
  }

  lemma {:induction false} FilterSame<T(!new)>(s: seq<T>, p: T -> bool, q: T -> bool)
    requires forall x :: p(x) == q(x)
    ensures Filtering.Filter(s, p) == Filtering.Filter(s, q)
  {
    if s != [] {
      FilterSame(s[1..], p, q);
    }
  }

  /** getStats over the store. */
  function GetStats(db: Db, now: int): (s: Stats)
    reads db
    ensures s.totalLeads == |db.LeadRows()|
    ensures s.recentLeads <= s.totalLeads
    ensures s.renewalCount <= s.activeContracts <= |db.ContractRows()|
    ensures 0.0 <= s.conversionRate <= 100.0
    ensures s.totalValue == SumActiveValues(db.ContractRows())
  {
    ComputeStats(db.LeadRows(), db.ContractRows(), now)
  }

  /** In a valid store the total is the number of leads, both breakdowns add up to
      it, and the renewal count is the length of the older controller's renewal
      listing. */
  lemma StatsOfStore(db: Db, now: int)
    requires db.Valid()
    ensures GetStats(db, now).totalLeads == |db.leads|
    ensures SumValues(GetStats(db, now).leadsByClassification) == |db.leads|
    ensures SumValues(GetStats(db, now).leadsByStatus) == |db.leads|
    ensures GetStats(db, now).renewalCount == |ContractsController.Renewals(db.ContractRows(), now)|
  {
    db.ListingsAreTables();
    BreakdownCoversAll(db.LeadRows(), Classification);
    BreakdownCoversAll(db.LeadRows(), Status);
    var due := Filtering.Filter(db.ContractRows(), (c: Contract) => ContractsController.DueForRenewal(c, now));
    Sorting.SortByMembers(due, EndDay);
  }

  /** In a valid store each count is the number of rows meeting its condition, the
      conversion rate is that of the closed leads among all leads, and the total value
      adds the active contracts' values. */
  lemma StoreCounts(db: Db, now: int)
    requires db.Valid()
    ensures GetStats(db, now).recentLeads == |set k | k in db.leads && IsRecent(db.leads[k], now)|
    ensures GetStats(db, now).activeContracts == |set k | k in db.contracts && IsActiveContract(db.contracts[k])|
    ensures GetStats(db, now).renewalCount ==
      |set k | k in db.contracts && ContractsController.DueForRenewal(db.contracts[k], now)|
    ensures |set k | k in db.leads && IsClosed(db.leads[k])| <= |db.leads|
    ensures GetStats(db, now).conversionRate ==
      ConversionRate(|set k | k in db.leads && IsClosed(db.leads[k])|, |db.leads|)
    ensures GetStats(db, now).totalValue == SumActiveValues(db.ContractRows())
  {
    RecentOfStore(db, now);
    ActiveOfStore(db, now);
    DueOfStore(db, now);
    ClosedOfStore(db, now);
    SumOfActive(db.ContractRows());
  }

  lemma RecentOfStore(db: Db, now: int)
    requires db.Valid()
    ensures GetStats(db, now).recentLeads == |set k | k in db.leads && IsRecent(db.leads[k], now)|
  {
    var recent := (l: Lead) => IsRecent(l, now);
    db.LeadsWhere(recent);
    assert GetStats(db, now).recentLeads == |Filtering.Filter(db.LeadRows(), recent)|;
    assert (set k | k in db.leads && recent(db.leads[k])) == set k | k in db.leads && IsRecent(db.leads[k], now);
  }

  lemma ActiveOfStore(db: Db, now: int)
    requires db.Valid()
    ensures GetStats(db, now).activeContracts == |set k | k in db.contracts && IsActiveContract(db.contracts[k])|
  {
    var active: Contract -> bool := IsActiveContract;
    db.ContractsWhere(active);
    assert GetStats(db, now).activeContracts == |Filtering.Filter(db.ContractRows(), active)|;
    assert (set k | k in db.contracts && active(db.contracts[k])) ==
      set k | k in db.contracts && IsActiveContract(db.contracts[k]);
  }

  lemma DueOfStore(db: Db, now: int)
    requires db.Valid()
    ensures GetStats(db, now).renewalCount ==
      |set k | k in db.contracts && ContractsController.DueForRenewal(db.contracts[k], now)|
  {
    var due := (c: Contract) => ContractsController.DueForRenewal(c, now);
    db.ContractsWhere(due);
    assert GetStats(db, now).renewalCount == |Filtering.Filter(db.ContractRows(), due)|;
    assert (set k | k in db.contracts && due(db.contracts[k])) ==
      set k | k in db.contracts && ContractsController.DueForRenewal(db.contracts[k], now);
  }

  lemma ClosedOfStore(db: Db, now: int)
    requires db.Valid()
    ensures |set k | k in db.leads && IsClosed(db.leads[k])| <= |db.leads|
    ensures GetStats(db, now).conversionRate ==
      ConversionRate(|set k | k in db.leads && IsClosed(db.leads[k])|, |db.leads|)
  {
    var closed: Lead -> bool := IsClosed;
    db.LeadsWhere(closed);
    db.ListingsAreTables();
    assert (set k | k in db.leads && closed(db.leads[k])) == set k | k in db.leads && IsClosed(db.leads[k]);
    assert |Filtering.Filter(db.LeadRows(), closed)| <= |db.LeadRows()|;
    assert GetStats(db, now).conversionRate == ConversionRate(|Filtering.Filter(db.LeadRows(), closed)|, |db.LeadRows()|);
  }

  /** With no active contract (or none carrying a value) the total value is 0: the
      NULL of an empty `SUM` becomes 0. */
  lemma {:induction false} NoActiveValueIsZero(cs: seq<Contract>)
    requires forall c :: c in cs ==> ContractValue(c) == 0
    ensures SumContractValues(cs) == 0
  {
    if cs != [] {
      assert cs[|cs| - 1] in cs;
      assert forall c :: c in cs[..|cs| - 1] ==> c in cs;
      NoActiveValueIsZero(cs[..|cs| - 1]);
    }
  }

  /** The total value counts only active contracts: an inactive contract's value
      never contributes. */
  lemma TotalValueOfActive(leads: seq<Lead>, contracts: seq<Contract>, now: int)
    requires forall c :: c in contracts ==> !IsActiveContract(c)
    ensures ComputeStats(leads, contracts, now).totalValue == 0
    ensures ComputeStats(leads, contracts, now).activeContracts == 0
  {
  }
}
