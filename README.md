# CRM core in Dafny

This project is a Dafny model of the server and page logic of a Portuguese-language CRM for an agency. The CRM keeps:

- leads captured from a questionnaire;
- the contracts closed with them, each with its service lines;
- the users who sign in;
- an activity log written by an audit middleware.

Every handler is SQL inside a JSON envelope. The model replaces the MySQL store with an in-memory `Database.Db` object:

- one map per table, from primary key to row;
- the next AUTO_INCREMENT value of each table;
- the users keyed by UUID;
- the activity log as a sequence.

Handlers are methods on that object. They return a `Values.Response`: `Ok`, `Created`, `BadRequest`, `NotFound`, `Conflict`, `Unauthorized` or `ServerError`, each with the handler's own message. The invariant `Db.Valid` says:

- keys lie below the next id and equal the row's id;
- service rows reference existing contracts;
- user emails are unique.

Every state-changing handler preserves it.

Modules (one per source file, plus shared ones):

| module | models |
|---|---|
| `Values` | The JSON/SQL value domain and JavaScript's truthiness, `||`, `String()`, `JSON.stringify` and `parseInt`. |
| `Strings` | JavaScript's `\s`, `trim`, `split`/`join`, `includes` and ASCII `toLowerCase`. |
| `CivilDate` | Proleptic Gregorian dates and the MakeDay month arithmetic of section 21.4 of ECMA-262, which `Date.prototype.setMonth` follows. |
| `Sorting`, `Filtering`, `Grouping` | `ORDER BY` as a stable sort, `WHERE`/`filter` and `GROUP BY` with `COUNT`/`SUM`. |
| `Database` | The tables, the shared contract-date and join helpers, and the store. |
| `LeadsController` | The lead handlers of `backend/src/controllers/leadsController.js`. |
| `ContractsAiController` | The AI-assisted contract handlers of `backend/src/contractsController.js`. |
| `ContractsController` | The older contract handlers of `backend/src/controllers/contractsController.js`. These are kept separate and deliberately not reconciled with the AI-assisted ones. |
| `Audit` | The audit middleware. |
| `Dashboard` | The `getStats` aggregates. |
| `AuthController` | `register` and `login`. |
| `ContractsPage` | The pure logic of the contracts page. |
| `SchemaSetup` | The schema statement splitter of `database/setup.js`. |

External services become parameters:

- the geolocation lookup: `Value -> Option<GeoData>`;
- the language-model extraction: the `aiConfigured` flag and `string -> Option<Extraction>`;
- bcrypt: `hash` and `verify`;
- the UUID: `freshId`;
- the clock: `now`, in seconds, or milliseconds on the page;
- the outcome of the audit insert: `insertSucceeds`.

## Model

| member | source | states |
|---|---|---|
| Values.ActorPrecedence | crm-novo/backend/src/controllers/leadsController.js:174 | The audit stamp is the user's name if truthy, else the email if truthy, else `Sistema`, and is never falsy. |
| LeadsController.RequiredFieldsAreAllNeeded | crm-novo/backend/src/controllers/leadsController.js:116-121 | Creation passes only when name, email, phone, score and classification are all truthy, so a score of 0 is refused. |
| LeadsController.NewLeadInitialState | crm-novo/backend/src/controllers/leadsController.js:137-148 | A new lead has status `novo`, the required fields as given, and every optional answer, instagram and IP as `x \|\| null` (NULL when falsy). |
| LeadsController.NoLocationWithoutLookup | crm-novo/backend/src/controllers/leadsController.js:124-146 | With no IP, or a failed lookup, all five location columns are NULL. |
| LeadsController.CreateLead | crm-novo/backend/src/controllers/leadsController.js:115-158 | Returns 400 with the store unchanged unless the required fields are present. Otherwise exactly one row is added under the next id, with the computed columns, and returned. |
| LeadsController.CollectUpdates | crm-novo/backend/src/controllers/leadsController.js:186-200 | The loop over the body's keys collects exactly the allow-listed keys, with their values. |
| LeadsController.UpdateFrame | crm-novo/backend/src/controllers/leadsController.js:195-216 | An update writes the allow-listed fields and the two audit stamps; every other column, the id and the timestamp are unchanged. |
| LeadsController.UpdateLead | crm-novo/backend/src/controllers/leadsController.js:176-217 | 404 for a missing id comes before any field filtering. With no allow-listed key the result is 400 and the store is unchanged. Otherwise only that row is replaced. |
| LeadsController.DeleteLead | crm-novo/backend/src/controllers/leadsController.js:242-249 | 404 exactly when the id is absent; otherwise exactly that lead is removed. |
| LeadsController.ListLeads | crm-novo/backend/src/controllers/leadsController.js:29-50 | The listing holds exactly the rows meeting every given filter (classification, status, substring search over name/email/phone), as a permutation of the filtered rows, newest timestamp first. |
| LeadsController.ListingOfStore | crm-novo/backend/src/controllers/leadsController.js:29-50 | Over a valid store the listing is the set of stored leads that match; without parameters it lists every lead exactly once. |
| LeadsController.ExportData | crm-novo/backend/src/controllers/leadsController.js:273-309 | The four known types succeed as a `text/plain; charset=utf-8` file named `emails.txt`, `telefones.txt`, `instagram.txt` or `localizacoes.txt`, whose content is the export's lines joined by newlines; any other type gives 400 `Tipo de exportação inválido`. |
| LeadsController.ExportRowsSelection | crm-novo/backend/src/controllers/leadsController.js:275-296 | E-mail and phone exports have one line per lead. Instagram and location exports keep exactly the rows with a non-NULL instagram or city. |
| LeadsController.ExportRowsOrder | crm-novo/backend/src/controllers/leadsController.js:275-296 | `ORDER BY timestamp DESC`: the exported rows come newest first, and each kept row appears as often as it is stored. |
| LeadsController.InstagramExportOrder | crm-novo/backend/src/controllers/leadsController.js:286-290 | The instagram export is the instagram text of the kept rows, in listing order. |
| LeadsController.ExportSplitsIntoLines | crm-novo/backend/src/controllers/leadsController.js:305 | The content is the lines joined by newline: when no line contains a newline, splitting the content returns the lines. |
| ContractsAiController.ResolveTerms | crm-novo/backend/src/contractsController.js:123-150 | The step-by-step reassignment of value, duration, services and `processedByAI` equals the declarative resolution `ResolvedTerms` over the extraction `Extract` (the oracle is asked only with notes and a configured integration). |
| ContractsAiController.ExplicitTermsWin | crm-novo/backend/src/contractsController.js:137-143 | A truthy caller value or duration is never overridden. |
| ContractsAiController.ExtractionFillsGaps | crm-novo/backend/src/contractsController.js:129-149 | A successful extraction fills a falsy value with its total ×100 (cents) and a falsy duration with its duration. `processedByAI` holds exactly on success. Without success nothing changes. |
| Values.ParseIntOfDecimal | crm-novo/backend/src/contractsController.js:163 | `parseInt(String(n))` reads back every integer `n`. |
| Values.ParseIntNaN | crm-novo/backend/src/contractsController.js:163 | `parseInt` of a text without a digit is NaN, and a negative result comes only from a text whose first non-blank character is `-`. |
| Values.Decimal | crm-novo/backend/src/contractsController.js:163 | `String(n)` is non-empty and starts with `-` or a digit. |
| Database.EndDateIsCalendarMonths | crm-novo/backend/src/contractsController.js:160-163 | With a date start and an integer duration, the end date is the start plus that many calendar months, by the MakeDay rule (day kept, overflow spilling into the next month). |
| CivilDate.AddMonths | crm-novo/backend/src/contractsController.js:161-163 | `setMonth(getMonth()+n)` gives a valid date whose day number is the first of the target month plus `day - 1`. |
| CivilDate.DayNumberInjective | crm-novo/backend/src/contractsController.js:161-163 | Day numbers determine dates, so the AddMonths equation fixes its result. |
| CivilDate.EndOfJanuaryPlusOneMonth | crm-novo/backend/src/contractsController.js:161-163 | 2024-01-31 + 1 month is 2024-03-02; 2023-01-31 + 1 is 2023-03-03; 2024-11-30 + 3 is 2025-03-02. |
| ContractsAiController.NewContractState | crm-novo/backend/src/contractsController.js:166-185 | The inserted contract is active and not renewal-notified. It runs from its start to its end date, carries the resolved value and duration, and has `processedByAI` exactly on extraction success. |
| ContractsAiController.NewServiceRowsShape | crm-novo/backend/src/contractsController.js:190-197 | After `n` iterations there is one row per service so far, referencing the new contract, named as extracted, valued at reais×100, under consecutive ids from the first one used; the table holds exactly those ids. |
| ContractsAiController.InsertServices | crm-novo/backend/src/contractsController.js:190-197 | The insertion loop adds exactly those rows to `contract_services` and advances the id counter by their number. |
| Database.ClosedLeadFrame | crm-novo/backend/src/contractsController.js:199-203 | Closing a lead sets status `fechado` and the two audit stamps and changes nothing else. |
| ContractsAiController.CreateContract | crm-novo/backend/src/contractsController.js:93-225 | The error path writes nothing: 400 without leadId or startDate, 404 for a missing lead, 400 when value or duration is still falsy after resolution, 500 for an unreadable date. Success stores the contract, its service rows and the closed lead, and returns the joined contract with its rows. |
| ContractsAiController.StoreContract | crm-novo/backend/src/contractsController.js:166-203 | The three writes: the contract under the next id, its service rows, and the lead set to `fechado`. |
| ContractsAiController.CoalesceKeepsNulls | crm-novo/backend/src/contractsController.js:264-289 | Each of the eight fields keeps its column when its input is null or absent and takes the input otherwise (`services` as JSON when truthy). The stamps are always written; nothing else changes. |
| ContractsAiController.UpdateContract | crm-novo/backend/src/contractsController.js:255-297 | 404 without a write for a missing id; otherwise only that row becomes the coalesced row. |
| Database.WithoutContract | crm-novo/backend/src/contractsController.js:328-329 | The cascade removes exactly the service rows of the deleted contract. |
| ContractsAiController.DeleteContract | crm-novo/backend/src/contractsController.js:320-329 | A missing id gives 404 and no write. Otherwise the contract and all of its service rows are gone, and nothing else is. |
| ContractsAiController.ContractsNearRenewal | crm-novo/backend/src/contractsController.js:348-358 | Lists exactly the active, un-notified contracts with `0 ≤ DATEDIFF(endDate, now) ≤ days` (30 by default), soonest end first. Each is listed as often as it occurs in the table listing. |
| ContractsAiController.NearRenewalExclusions | crm-novo/backend/src/contractsController.js:354-357 | Notified contracts, contracts already past their end, and contracts beyond the window are never listed. |
| ContractsAiController.GetContractsNearRenewal | crm-novo/backend/src/contractsController.js:348-358 | The joined listing over the store holds a row for every stored near-renewal contract, and only for such contracts. |
| ContractsAiController.NearRenewalJoined | crm-novo/backend/src/contractsController.js:348-358 | The joined near-renewal rows come soonest end first, each carrying its own lead's name, email and phone (NULL without a lead). |
| Database.LeftJoinLead | crm-novo/backend/src/contractsController.js:350-353 | One joined row keeps the contract and carries the name, email and phone of the lead whose id is the `leadId`; all three are NULL when no lead has that id. |
| Database.JoinLeads | crm-novo/backend/src/contractsController.js:350-353 | The LEFT JOIN keeps every contract, in order, one row per contract; each row's lead columns are that lead's name, email and phone, or NULL for a missing lead. |
| Database.JoinKeepsContracts | crm-novo/backend/src/contractsController.js:350-353 | The join lists the same contracts as its input: every joined contract is an input row and every input row is joined. |
| ContractsAiController.ListedContracts | crm-novo/backend/src/contractsController.js:9-24 | Lists exactly the contracts the `isActive` filter keeps (absent: all; `'true'`: active; anything else: inactive), newest `createdAt` first. Each is listed as often as it occurs in the table listing. |
| ContractsAiController.ServicesOf | crm-novo/backend/src/contractsController.js:28-31 | Exactly the service rows of the given contract, each as often as it occurs in the table listing. |
| ContractsAiController.GetAllContracts | crm-novo/backend/src/contractsController.js:27-33 | The loop attaches to each listed contract, in order, its joined lead columns and exactly its service rows. |
| ContractsAiController.ServiceStats | crm-novo/backend/src/contractsController.js:379-388 | One entry per service name, carrying that name's row count (positive) and revenue sum; every row's name is covered; ordered by revenue descending. |
| ContractsAiController.ServiceGroupsFacts | crm-novo/backend/src/contractsController.js:380-386 | Before sorting, the groups have distinct names with their own count and sum, and cover every row's name. |
| ContractsAiController.SortedStatsFacts | crm-novo/backend/src/contractsController.js:387 | Reordering the groups by revenue keeps one entry per name and each entry's figures. |
| ContractsAiController.ServiceCountsCoverAll | crm-novo/backend/src/contractsController.js:380-386 | The grouped counts add up to the number of service rows. |
| Grouping.GroupCountsCoverAll | crm-novo/backend/src/contractsController.js:382-386 | For any key, `GROUP BY` loses no row: the counts of the distinct keys add up to the number of rows. |
| ContractsController.RequiredFieldsAreAllNeeded | crm-novo/backend/src/controllers/contractsController.js:88-93 | A falsy leadId, contractValue, contractDuration or startDate alone fails the check. |
| ContractsController.NewContractState | crm-novo/backend/src/controllers/contractsController.js:104-127 | The inserted contract carries the caller's value and duration, runs from start to the end date, is active and is not renewal-notified. |
| ContractsController.CreateContract | crm-novo/backend/src/controllers/contractsController.js:74-147 | 400 unless all four fields are truthy; 404 for a missing lead; 500 for an unreadable date; none of these writes. Success inserts the contract, closes its lead and returns the joined row. |
| ContractsController.StoreContract | crm-novo/backend/src/controllers/contractsController.js:110-133 | The contract goes under the next id and the lead becomes `fechado` with its audit stamps. |
| Values.Stringify | crm-novo/backend/src/controllers/contractsController.js:187 | `JSON.stringify` is non-empty; exactly arrays start with `[` (and end with `]`), exactly objects start with `{` (and end with `}`), and texts and dates are quoted. |
| ContractsController.CollectUpdates | crm-novo/backend/src/controllers/contractsController.js:183-193 | The loop collects exactly the allow-listed keys, with `services` JSON-encoded when it is an object, array or null. |
| ContractsController.UpdateFrame | crm-novo/backend/src/controllers/contractsController.js:183-210 | Each allow-listed key is written (explicit nulls included), object-valued `services` as JSON, plus the stamps; other columns are unchanged. |
| ContractsController.UpdateContract | crm-novo/backend/src/controllers/contractsController.js:166-210 | 404 comes first. With no allow-listed key the result is 400 and there is no write. Otherwise only that row changes. |
| ContractsController.DeleteContract | crm-novo/backend/src/controllers/contractsController.js:240-247 | 404 exactly when no row has the id; otherwise that contract and its service rows go. |
| ContractsController.Renewals | crm-novo/backend/src/controllers/contractsController.js:266-273 | Lists exactly the active contracts whose end date lies in [now, now + 30 days], soonest first, each as often as it occurs in the input. |
| ContractsController.GetRenewals | crm-novo/backend/src/controllers/contractsController.js:266-283 | The joined listing over the store holds a row for every stored due contract, and only for such contracts. |
| ContractsController.RenewalsJoined | crm-novo/backend/src/controllers/contractsController.js:266-273 | The joined renewal rows come soonest end first, each carrying its own lead's columns. |
| ContractsController.NotifiedAreNotExcluded | crm-novo/backend/src/controllers/contractsController.js:270-272 | The `renewalNotified` flag never decides membership. |
| ContractsController.RenewalsWithinThirtyDays | crm-novo/backend/src/controllers/contractsController.js:271-272 | Every listed contract ends between 0 and 30 whole days from today. |
| Audit.GetAuditUser | crm-novo/backend/src/middleware/auditoryMiddleware.js:10-13 | The audit user's id is the user's id (undefined without a user). The name is the user's name when truthy, else `Desconhecido`. |
| Audit.MethodVerbs | crm-novo/backend/src/middleware/auditoryMiddleware.js:77-89 | POST maps to criou, PUT/PATCH to modificou, DELETE to deletou, and every other method to `atualizou`, each in both directions. |
| Audit.FirstMatch | crm-novo/backend/src/middleware/auditoryMiddleware.js:97 | Finds the leftmost position where the segment is followed by a digit, or proves there is none. |
| Audit.DigitRun | crm-novo/backend/src/middleware/auditoryMiddleware.js:97 | The greedy `\d+`: the longest digit prefix. |
| Audit.PathId | crm-novo/backend/src/middleware/auditoryMiddleware.js:97-117 | `match(/seg(\d+)/)?.[1]` is defined exactly when some occurrence of the segment is followed by a digit. It is then the non-empty digit run after the leftmost such occurrence. |
| Audit.EntityTypePrecedence | crm-novo/backend/src/middleware/auditoryMiddleware.js:91-126 | `/leads` wins over `/contracts`, which wins over `/services`; a path with none of them is not recognised (and is not logged). |
| Audit.EntityIdSource | crm-novo/backend/src/middleware/auditoryMiddleware.js:97-120 | The id is the digit string from the path when there is one, else `body.id`. |
| Audit.EntityNames | crm-novo/backend/src/middleware/auditoryMiddleware.js:101-121 | The name falls back to `Lead`, `Contrato` or `Serviço`; a contract with a value is named `Contrato R$ <value>`; the name is never falsy. |
| Audit.ExtractEntityInfo | crm-novo/backend/src/middleware/auditoryMiddleware.js:91-126 | No entity exactly when the path contains none of `/leads`, `/contracts`, `/services`; a recognised entity always has a truthy name. |
| Audit.GenerateDescription | crm-novo/backend/src/middleware/auditoryMiddleware.js:128-136 | The sentence is `<user> <verb> <type> "<name>"`: it starts with the user name and the verb, has the entity type in the middle, ends with the quoted entity name, and its length is the sum of the parts plus the three separators. |
| Audit.DescriptionNameReadBack | crm-novo/backend/src/middleware/auditoryMiddleware.js:128-136 | The entity name can be read back from between the quotes of the sentence. |
| Audit.LogEntry | crm-novo/backend/src/middleware/auditoryMiddleware.js:40-66 | The row carries the action of the method, the recognised type, id and name, the audit user's id and name, the description sentence built from the action, type, name and user name, and the snapshot `{before: body.before \|\| null, after: body}`. |
| Audit.EntrySentence | crm-novo/backend/src/middleware/auditoryMiddleware.js:50 | The logged sentence names the (never falsy) user and the verb of the action. |
| Audit.LogActivity | crm-novo/backend/src/middleware/auditoryMiddleware.js:38-71 | Appends one row for a recognised entity when there is a signed-in user and the insert succeeds. Without a user the insert always fails. Otherwise the log is unchanged and the failure is swallowed. The store invariant is kept. |
| Audit.Send | crm-novo/backend/src/middleware/auditoryMiddleware.js:18-29 | Logs only for a 2xx status, a method other than GET and a signed-in user, and always sends the data unchanged. The store invariant is kept. |
| Dashboard.Breakdown | crm-novo/crm-final-v2/backend/src/controllers/dashboardController.js:10-21 | One `{name, value}` pair per distinct key, in order of first appearance, valued with that key's count. |
| Dashboard.PairsTotal | crm-novo/crm-final-v2/backend/src/controllers/dashboardController.js:67-74 | Reshaping to `{name, value}` keeps the total of the counts. |
| Dashboard.BreakdownCoversAll | crm-novo/crm-final-v2/backend/src/controllers/dashboardController.js:7-21 | Each breakdown's values sum to the number of leads; names are distinct; every lead's group is listed with a positive count. |
| Dashboard.ConversionRate | crm-novo/crm-final-v2/backend/src/controllers/dashboardController.js:54-56 | 0 with no leads; otherwise `rate × total = closed × 100`, between 0 and 100, and 100 when all leads are closed. |
| Dashboard.ComputeStats | crm-novo/crm-final-v2/backend/src/controllers/dashboardController.js:7-76 | The total is the number of lead rows. Recent leads ≤ total. Renewals ≤ active contracts ≤ contracts. The rate lies in [0, 100]. The total value is the sum of the active contracts' values. |
| Dashboard.SumOfActive | crm-novo/crm-final-v2/backend/src/controllers/dashboardController.js:29-31 | `SUM(contractValue) WHERE isActive = 1` equals the sum over all contracts where an inactive one adds 0. |
| Dashboard.GetStats | crm-novo/crm-final-v2/backend/src/controllers/dashboardController.js:7-76 | Over the store: the total is the number of listed leads, recent ≤ total, renewals ≤ active ≤ contracts, the rate in [0, 100], and the total value is the active value sum. |
| Dashboard.StoreCounts | crm-novo/crm-final-v2/backend/src/controllers/dashboardController.js:24-56 | In a valid store each count is the number of stored rows meeting its `WHERE`: recent leads, active contracts, due contracts; the rate is `closed / total × 100` over the stored leads; the total value is the active value sum. |
| Dashboard.RenewalsAreActive | crm-novo/crm-final-v2/backend/src/controllers/dashboardController.js:24-40 | The contracts counted for renewal are among the active ones. |
| Dashboard.StatsOfStore | crm-novo/crm-final-v2/backend/src/controllers/dashboardController.js:7-40 | Over a valid store the total is the number of leads and both breakdowns sum to it. The renewal count equals the length of the older controller's 30-day renewal listing. |
| Database.Db.LeadsWhere | crm-novo/crm-final-v2/backend/src/controllers/dashboardController.js:43-56 | `COUNT(*) ... WHERE p` over the leads listing is the number of stored leads meeting `p`. |
| Database.Db.ContractsWhere | crm-novo/crm-final-v2/backend/src/controllers/dashboardController.js:24-40 | `COUNT(*) ... WHERE p` over the contracts listing is the number of stored contracts meeting `p`. |
| Database.FilterTableRowsCount | crm-novo/crm-final-v2/backend/src/controllers/dashboardController.js:24-56 | Filtering a table listing keeps as many rows as there are keys whose row meets the condition. |
| Dashboard.NoActiveValueIsZero | crm-novo/crm-final-v2/backend/src/controllers/dashboardController.js:29-31 | With no value to add, the sum is 0 (the `\|\| 0` of a NULL `SUM`). |
| Dashboard.TotalValueOfActive | crm-novo/crm-final-v2/backend/src/controllers/dashboardController.js:24-31 | With no active contract, both the active count and the total value are 0. |
| AuthController.EmailMatchesPattern | crm-novo/backend/src/controllers/authController.js:20-21 | The check accepts exactly the texts of the form `local@domain` with a plain, non-empty local part and a plain domain that has a dot between two characters. |
| AuthController.AddressAccepted | crm-novo/backend/src/controllers/authController.js:20 | `ana@crm.com` matches. |
| AuthController.SecondAtRejected | crm-novo/backend/src/controllers/authController.js:20 | An address with a second `@` does not match. |
| AuthController.DotlessDomainRejected | crm-novo/backend/src/controllers/authController.js:20 | A domain whose only dot is at its end does not match. |
| AuthController.LengthCountsCodeUnits | crm-novo/backend/src/controllers/authController.js:29 | The length rule counts UTF-16 code units: three characters outside the Basic Multilingual Plane count as 6 and pass, while `abc` is too short. |
| AuthController.Register | crm-novo/backend/src/controllers/authController.js:7-85 | In order, each of the following writes nothing: 400 for a missing field, 400 for a malformed email, 400 for a password shorter than six UTF-16 code units, 409 for a taken email, and 500 for a non-string password or a used UUID. Otherwise exactly one user is added, with role `user` and the hashed password, and its view without a password is returned. |
| AuthController.Login | crm-novo/backend/src/controllers/authController.js:89-153 | 400 for a missing field. Unknown email and wrong password give the same 401. 500 when the comparison throws. None of these writes. Success changes only that user's `lastSignedIn` and returns the user as read, without the password. |
| ContractsPage.FindLead | crm-novo/frontend/src/pages/Contracts.jsx:38 | `find` returns the first lead with the id, or none when no lead has it. |
| ContractsPage.LeadLookups | crm-novo/frontend/src/pages/Contracts.jsx:37-45 | An unknown lead reads as `Lead não encontrado` with email `''`; a known one as the first match's name and email. |
| ContractsPage.CeilDiv | crm-novo/frontend/src/pages/Contracts.jsx:51 | `Math.ceil(a / b)`: the least integer `q` with `a ≤ q·b`. |
| ContractsPage.ExpiringSoonWindow | crm-novo/frontend/src/pages/Contracts.jsx:47-53 | Expiring soon (rounded-up days in (0, 30]) exactly when `0 < end − today ≤ 30 days`. |
| ContractsPage.ExpiryDisjoint | crm-novo/frontend/src/pages/Contracts.jsx:47-59 | Expired and expiring soon are disjoint; a contract ending now is neither. |
| ContractsPage.Searched | crm-novo/frontend/src/pages/Contracts.jsx:61-69 | `filteredContracts` holds exactly the contracts that match the search, each as often as listed. |
| ContractsPage.ActiveOnes | crm-novo/frontend/src/pages/Contracts.jsx:71 | `activeContracts` holds exactly the filtered contracts flagged active and not expired, each as often as filtered. |
| ContractsPage.ExpiringOnes | crm-novo/frontend/src/pages/Contracts.jsx:72 | `expiringContracts` holds exactly the active contracts that expire soon, each as often as active. |
| ContractsPage.ExpiredOnes | crm-novo/frontend/src/pages/Contracts.jsx:73 | `expiredContracts` holds exactly the filtered contracts that have expired, each as often as filtered. |
| ContractsPage.Partition | crm-novo/frontend/src/pages/Contracts.jsx:61-73 | Filtered = search matches. Active = filtered, active flag set and not expired. Expiring = active and expiring soon. Expired = filtered and expired. In each list a contract occurs as often as in the list it is drawn from. |
| ContractsPage.ListRelations | crm-novo/frontend/src/pages/Contracts.jsx:71-73 | Expiring ⊆ active. Expired lists are disjoint from the active ones. An expired filtered contract is listed as expired whatever its flag. Expired ⊆ filtered. |
| ContractsPage.SearchIgnoresCase | crm-novo/frontend/src/pages/Contracts.jsx:64-67 | Lowercasing the term does not change which contracts match. |
| ContractsPage.EmptySearchKeepsAll | crm-novo/frontend/src/pages/Contracts.jsx:61-69 | An empty term keeps every contract. |
| Strings.Utf16Length | crm-novo/backend/src/controllers/authController.js:29 | JavaScript's `length` counts UTF-16 code units: at least the number of characters and at most twice it. |
| Strings.Utf16LengthOfBmp | crm-novo/backend/src/controllers/authController.js:29 | A text made only of Basic Multilingual Plane characters has one code unit per character. |
| Strings.Split | crm-novo/backend/database/setup.js:38 | `split(';')` yields at least one chunk and no chunk contains the separator. |
| Strings.JoinSplit | crm-novo/backend/database/setup.js:38 | Joining the chunks with the separator gives back the text. |
| Strings.Trim | crm-novo/backend/database/setup.js:39 | `trim` returns a slice with no whitespace at either end, and only whitespace was cut off. |
| SchemaSetup.TrimKeepsOut | crm-novo/backend/database/setup.js:39 | Trimming introduces no character that was not there. |
| SchemaSetup.TrimAll | crm-novo/backend/database/setup.js:39 | `.map(s => s.trim())` trims each chunk in place, keeping the count. |
| SchemaSetup.Statements | crm-novo/backend/database/setup.js:37-40 | Every statement is free of `;`, non-empty, trimmed at both ends, does not start with `--`, and is the trim of a chunk of the split; there are no more statements than chunks. |
| SchemaSetup.KeptChunks | crm-novo/backend/database/setup.js:37-40 | The kept, trimmed chunks of any `;`-free chunk list are well formed, each the trim of one of the chunks. |
| SchemaSetup.StatementsInOrder | crm-novo/backend/database/setup.js:37-40 | A leading chunk contributes its statement (if kept) before all statements of the rest, so order is preserved. |
| SchemaSetup.CommentChunkDropped | crm-novo/backend/database/setup.js:40 | A chunk that begins with a `--` line is dropped whole, with any statement inside it. |
| SchemaSetup.StatementChunkKept | crm-novo/backend/database/setup.js:37-40 | Any other non-empty chunk is executed, trimmed, before the rest. |
| Filtering.FilterAppend | crm-novo/backend/database/setup.js:40 | Filtering distributes over concatenation, so survivors keep their relative order. |
| Filtering.FilterCounts | crm-novo/backend/database/setup.js:40 | A kept row occurs in the result as often as in the input; a dropped one not at all. |
| Filtering.FilterKeepsSorted | crm-novo/backend/src/controllers/leadsController.js:286-293 | A `WHERE` over a listing sorted by a key leaves it sorted by that key. |
| Sorting.SortBy | crm-novo/backend/src/controllers/leadsController.js:48 | `ORDER BY` yields a permutation of its input that is sorted by the key. |

## Left out

- I/O and wiring:
  - Network, connection pool, JWT signing and verification, and the bearer middleware.
  - The Express routes, and the fact that `server.js` mounts the audit middleware after the routers. Its helpers and gate are modelled, not its placement.
  - The execution loop of the setup script.
  - The `message`, `count`, `token` and `aiProcessed` fields of the JSON envelopes are not modelled; each response carries its data or its message.
- External services:
  - The geolocation HTTP call, the language-model prompt and parsing, bcrypt itself and `crypto.randomUUID` are oracles or parameters.
  - The extraction's totals are integers; fractional reais are not modelled.
- Concurrency and failure:
  - The handlers' writes are not transactional in the source. They are modelled as one sequential method, with no crash window or race.
  - SQL errors other than those named below are not modelled.
- Time:
  - Time zones, and the local-time semantics of JavaScript `Date` and MySQL `NOW()`.
  - Dates are civil dates and `now` is a parameter. A date column is compared at its midnight in UTC seconds, and `DATEDIFF` counts whole UTC days.
  - The page evaluates `new Date()` once per call; the model uses one `today` for all of them.
- Numbers and formatting:
  - Floating point, the `toFixed(2)` rounding of the conversion rate, SQL `AVG` (the `avgRevenue` column), and DECIMAL sums returned as strings.
  - The conversion rate and sums are exact rationals or integers.
- SQL semantics:
  - MySQL column-type coercion is not modelled. Inserted values are stored as given, and a contract's `leadId` is stored as the matched key.
  - `LIKE` wildcards inside the search term, collation-based case-insensitivity, and case-insensitive email uniqueness are not modelled.
  - mysql2's refusal of `undefined` bind parameters is not modelled: an absent request field reads as NULL.
  - For the audit insert, an absent user leaves `userId` undefined, so that insert always fails and the model writes no row. When there is a user, `insertSucceeds` covers every other failure, including an undefined entity id.
- Dates from requests:
  - The source reads a start date with `new Date` and a duration with `parseInt`. The model reads only date-only texts (`Value.Day`) as dates.
  - A start date in any other form gets a 500 in the model. This includes valid forms such as an ISO date-time or a numeric timestamp, with which the source creates the contract. The model does not capture that success.
  - A start date that really is an Invalid Date, or a duration that `parseInt` reads as NaN, also gets a 500. This stands for the failing insert in the source, and what the driver does with such a value is not modelled.
- Handlers not modelled:
  - `getLeadById` and `getContractById` in both contract controllers.
  - The older controller's `getAllContracts`, whose listing is the same as `ContractsAiController.ListedContracts` without service rows.
  - The manual audit helpers of the middleware file, and `me` in the auth controller.
- Audit details:
  - Only an object body is modelled; a missing `req.body` is not.
  - The `id` and `createdAt` of activity rows are not modelled.
  - The `changes` column is the snapshot value, not its JSON text, and its key order is not modelled.
- Passwords: objects with a `length` property are not modelled as passwords; only strings and arrays have a length.
- AuthController.Register: the returned view omits `lastSignedIn`, as the source's read-back does. The source's insert relies on the column's default for `createdAt`, modelled as `now`.
- ContractsPage: a lead's name and email are texts. A lead whose name or email is NULL can exist (a lead update may write NULL), and then `toLowerCase` throws and the page's filter aborts; a `services` value that is not a text throws the same way. The model's `LeadEntry` holds texts only and `services` is an optional text, so the throwing path is not modelled.
- ContractsAiController.UpdateContract: an absent body field is modelled as NULL, so COALESCE keeps the column. The repository's `query` helper runs statements through `execute`, which rejects an `undefined` bind, so in the source the UPDATE fails with 500 instead. The helper's file (`config/database.js`) is not part of this model.
- Audit.Send: `logActivity` is called without `await`, so the source sends the response while the log insert is still pending and the row is written afterwards. The model appends the row before returning the sent data; the ordering and any interleaving with other requests are not modelled.
- Dashboard.Breakdown: `GROUP BY` without `ORDER BY` leaves the order of the groups unspecified. The model lists them in order of first appearance, which is one of the orders the database may return.
- Strings: `toLowerCase` is ASCII-only in the model; Unicode case mapping is not modelled.
- Rendering: the React rendering of the contracts page, and every other page and component.
