/** The contracts page's pure logic: the lead lookups, the expiry classification,
    the search filter and the split into active, expiring and expired lists. Times
    are milliseconds since the Unix epoch, `today` being the page's current time. */
module ContractsPage {
  import opened Strings
  import opened Values
  import Filtering

  const MsPerDay: int := 1000 * 60 * 60 * 24
  const UnknownLeadName := "Lead não encontrado"

  /** A lead of the loaded list. */
  datatype LeadEntry = LeadEntry(id: int, name: string, email: string)

  /** A contract of the loaded list: its lead, its `services` text (null when absent),
      its active flag and its end date. */
  datatype ContractEntry = ContractEntry(leadId: int, services: Option<string>, isActive: bool, endMs: int)

  // ---------------------------------------------------------------- lead lookups

  /** `leads.find(l => l.id === leadId)`: the first lead with that id. */
  function FindLead(leads: seq<LeadEntry>, leadId: int): (r: Option<LeadEntry>)
    ensures r.Some? ==> exists i | 0 <= i < |leads| ::
      leads[i] == r.value && leads[i].id == leadId && forall k :: 0 <= k < i ==> leads[k].id != leadId
    ensures r.None? <==> forall l :: l in leads ==> l.id != leadId
  {
    if leads == [] then None
    else if leads[0].id == leadId then Some(leads[0])
    else
      var r := FindLead(leads[1..], leadId);
      FirstMatchShifts(leads, leadId, r);
      r
  }

  lemma FirstMatchShifts(leads: seq<LeadEntry>, leadId: int, r: Option<LeadEntry>)
    requires leads != [] && leads[0].id != leadId
    requires r.Some? ==> exists i | 0 <= i < |leads[1..]| ::
      leads[1..][i] == r.value && leads[1..][i].id == leadId && forall k :: 0 <= k < i ==> leads[1..][k].id != leadId
    requires r.None? <==> forall l :: l in leads[1..] ==> l.id != leadId
    ensures r.Some? ==> exists i | 0 <= i < |leads| ::
      leads[i] == r.value && leads[i].id == leadId && forall k :: 0 <= k < i ==> leads[k].id != leadId
    ensures r.None? <==> forall l :: l in leads ==> l.id != leadId
  {
    assert forall l :: l in leads ==> l == leads[0] || l in leads[1..];
    if r.Some? {
      var i :| 0 <= i < |leads[1..]| && leads[1..][i] == r.value && leads[1..][i].id == leadId &&
               forall k :: 0 <= k < i ==> leads[1..][k].id != leadId;
      assert leads[i + 1] == r.value;
      forall k | 0 <= k < i + 1 ensures leads[k].id != leadId {
        if k > 0 { assert leads[k] == leads[1..][k - 1]; }
      }
    } else {
      forall l | l in leads ensures l.id != leadId {
      }
    }
  }

  function GetLeadName(leads: seq<LeadEntry>, leadId: int): string {
    var lead := FindLead(leads, leadId);
    if lead.Some? then lead.value.name else UnknownLeadName
  }

  function GetLeadEmail(leads: seq<LeadEntry>, leadId: int): string {
    var lead := FindLead(leads, leadId);
    if lead.Some? then lead.value.email else ""
  }

  /** An unknown lead reads as `Lead não encontrado` with an empty email; a known one
      as the name and email of the first lead with that id. */
  lemma LeadLookups(leads: seq<LeadEntry>, leadId: int)
    ensures (forall l :: l in leads ==> l.id != leadId) ==>
      GetLeadName(leads, leadId) == UnknownLeadName && GetLeadEmail(leads, leadId) == ""
    ensures forall i :: 0 <= i < |leads| && leads[i].id == leadId && (forall k :: 0 <= k < i ==> leads[k].id != leadId) ==>
      GetLeadName(leads, leadId) == leads[i].name && GetLeadEmail(leads, leadId) == leads[i].email
  {
    var r := FindLead(leads, leadId);
    if r.Some? {
      var j :| 0 <= j < |leads| && leads[j] == r.value && leads[j].id == leadId &&
               forall k :: 0 <= k < j ==> leads[k].id != leadId;
      forall i | 0 <= i < |leads| && leads[i].id == leadId && (forall k :: 0 <= k < i ==> leads[k].id != leadId)
        ensures leads[i] == r.value
      {
        assert !(i < j) && !(j < i);
      }
    }
  }

  // ---------------------------------------------------------------- expiry

  /** `Math.ceil(a / b)` for a positive divisor. */
  function CeilDiv(a: int, b: int): (q: int)
    requires b > 0
    ensures (q - 1) * b < a <= q * b
  {
    -((-a) / b)
  }

  /** isExpiringSoon: the remaining time, rounded up to whole days, is in (0, 30]. */
  predicate IsExpiringSoon(endMs: int, todayMs: int) {
    var diffDays := CeilDiv(endMs - todayMs, MsPerDay);
    diffDays <= 30 && diffDays > 0
  }

  /** isExpired: the end lies before now. */
  predicate IsExpired(endMs: int, todayMs: int) {
    endMs < todayMs
  }

  /** Rounding up means: expiring soon exactly when the end is after now and at most
      30 whole days away. */
  lemma ExpiringSoonWindow(endMs: int, todayMs: int)
    ensures IsExpiringSoon(endMs, todayMs) <==> 0 < endMs - todayMs <= 30 * MsPerDay
  {
    var d := endMs - todayMs;
    var q := CeilDiv(d, MsPerDay);
    if 0 < d <= 30 * MsPerDay {
      assert (q - 1) * MsPerDay < 30 * MsPerDay;
      assert 0 < q * MsPerDay;
    }
    if IsExpiringSoon(endMs, todayMs) {
      assert q * MsPerDay <= 30 * MsPerDay;
      assert 0 <= (q - 1) * MsPerDay;
    }
  }

  /** No contract is both expired and expiring soon; one ending exactly now is
      neither. */
  lemma ExpiryDisjoint(endMs: int, todayMs: int)
    ensures !(IsExpired(endMs, todayMs) && IsExpiringSoon(endMs, todayMs))
    ensures endMs == todayMs ==> !IsExpired(endMs, todayMs) && !IsExpiringSoon(endMs, todayMs)
  {
    ExpiringSoonWindow(endMs, todayMs);
  }

  // ---------------------------------------------------------------- search and lists

  /** The search condition: the lowercased term occurs in the lowercased lead name,
      lead email or services text. */
  predicate Matches(leads: seq<LeadEntry>, term: string, c: ContractEntry) {
    var t := ToLower(term);
    Contains(ToLower(GetLeadName(leads, c.leadId)), t) ||
    Contains(ToLower(GetLeadEmail(leads, c.leadId)), t) ||
    (c.services.Some? && Contains(ToLower(c.services.value), t))
  }

  /** The four lists the page shows. */
  datatype Lists = Lists(filtered: seq<ContractEntry>, active: seq<ContractEntry>,
                         expiring: seq<ContractEntry>, expired: seq<ContractEntry>)

  /** `filteredContracts`: the contracts that match the search, as often as listed. */
  function Searched(contracts: seq<ContractEntry>, leads: seq<LeadEntry>, term: string): (r: seq<ContractEntry>)
    ensures forall c :: c in r <==> c in contracts && Matches(leads, term, c)
    ensures forall c :: multiset(r)[c] == if Matches(leads, term, c) then multiset(contracts)[c] else 0
  {
    var m := (c: ContractEntry) => Matches(leads, term, c);
    Filtering.FilterCounts(contracts, m);
    Filtering.Filter(contracts, m)
  }

  /** `activeContracts`: the filtered contracts flagged active that have not expired. */
  function ActiveOnes(filtered: seq<ContractEntry>, todayMs: int): (r: seq<ContractEntry>)
    ensures forall c :: c in r <==> c in filtered && c.isActive && !IsExpired(c.endMs, todayMs)
    ensures forall c :: multiset(r)[c] == if c.isActive && !IsExpired(c.endMs, todayMs) then multiset(filtered)[c] else 0
  {
    var a := (c: ContractEntry) => c.isActive && !IsExpired(c.endMs, todayMs);
    Filtering.FilterCounts(filtered, a);
    Filtering.Filter(filtered, a)
  }

  /** `expiringContracts`: the active contracts that expire soon. */
  function ExpiringOnes(active: seq<ContractEntry>, todayMs: int): (r: seq<ContractEntry>)
    ensures forall c :: c in r <==> c in active && IsExpiringSoon(c.endMs, todayMs)
    ensures forall c :: multiset(r)[c] == if IsExpiringSoon(c.endMs, todayMs) then multiset(active)[c] else 0
  {
    var e := (c: ContractEntry) => IsExpiringSoon(c.endMs, todayMs);
    Filtering.FilterCounts(active, e);
    Filtering.Filter(active, e)
  }

  /** `expiredContracts`: the filtered contracts that have expired, whatever their flag. */
  function ExpiredOnes(filtered: seq<ContractEntry>, todayMs: int): (r: seq<ContractEntry>)
    ensures forall c :: c in r <==> c in filtered && IsExpired(c.endMs, todayMs)
    ensures forall c :: multiset(r)[c] == if IsExpired(c.endMs, todayMs) then multiset(filtered)[c] else 0
  {
    var x := (c: ContractEntry) => IsExpired(c.endMs, todayMs);
    Filtering.FilterCounts(filtered, x);
    Filtering.Filter(filtered, x)
  }

  function Partition(contracts: seq<ContractEntry>, leads: seq<LeadEntry>, term: string, todayMs: int): (p: Lists)
    ensures forall c :: c in p.filtered <==> c in contracts && Matches(leads, term, c)
    ensures forall c :: c in p.active <==> c in p.filtered && c.isActive && !IsExpired(c.endMs, todayMs)
    ensures forall c :: c in p.expiring <==> c in p.active && IsExpiringSoon(c.endMs, todayMs)
    ensures forall c :: c in p.expired <==> c in p.filtered && IsExpired(c.endMs, todayMs)
    ensures forall c :: multiset(p.filtered)[c] == if Matches(leads, term, c) then multiset(contracts)[c] else 0
    ensures forall c :: multiset(p.active)[c] == if c.isActive && !IsExpired(c.endMs, todayMs) then multiset(p.filtered)[c] else 0
    ensures forall c :: multiset(p.expiring)[c] == if IsExpiringSoon(c.endMs, todayMs) then multiset(p.active)[c] else 0
    ensures forall c :: multiset(p.expired)[c] == if IsExpired(c.endMs, todayMs) then multiset(p.filtered)[c] else 0
  {
    var filtered := Searched(contracts, leads, term);
    var active := ActiveOnes(filtered, todayMs);
    Lists(filtered, active, ExpiringOnes(active, todayMs), ExpiredOnes(filtered, todayMs))
  }

  /** Expiring contracts are active ones, expired contracts are never active, and an
      expired contract is listed as expired whatever its active flag. */
  lemma ListRelations(contracts: seq<ContractEntry>, leads: seq<LeadEntry>, term: string, todayMs: int)
    ensures var p := Partition(contracts, leads, term, todayMs);
      (forall c :: c in p.expiring ==> c in p.active) &&
      (forall c :: c in p.expired ==> c !in p.active && c !in p.expiring) &&
      (forall c :: c in p.filtered && IsExpired(c.endMs, todayMs) ==> c in p.expired) &&
      (forall c :: c in p.expired ==> c in p.filtered)
  {
  }

  lemma {:induction false} LowerIdempotent(s: string)
    ensures ToLower(ToLower(s)) == ToLower(s)
  {
    var t := ToLower(s);
    var u := ToLower(t);
    assert forall i :: 0 <= i < |s| ==> u[i] == t[i];
    assert u == t;
  }

  /** The search ignores the case of the term. */
  lemma SearchIgnoresCase(leads: seq<LeadEntry>, term: string, c: ContractEntry)
    ensures Matches(leads, ToLower(term), c) <==> Matches(leads, term, c)
  {
    LowerIdempotent(term);
  }

  /** An empty search keeps every contract. */
  lemma EmptySearchKeepsAll(contracts: seq<ContractEntry>, leads: seq<LeadEntry>, todayMs: int)
    ensures Partition(contracts, leads, "", todayMs).filtered == contracts
  {
    forall c | c in contracts ensures Matches(leads, "", c) {
      EmptyIsContained(ToLower(GetLeadName(leads, c.leadId)));
    }
    Filtering.FilterAll(contracts, (c: ContractEntry) => Matches(leads, "", c));
  }
}
