# BTC back-office rule layer, in Dafny

This project models the rule layer of the BTC CRM back-office. The back-office is a Django REST API that admins use to manage:

- merchants (costumers) and their trading addresses;
- the countries served;
- POS terminals, with their companies and models;
- virtual services;
- contracts that tie POS terminals and services to a merchant.

The model covers what the code decides, as opposed to the HTTP and ORM plumbing:

- the write-time validators and derived fields of the records (`app/core/models.py`);
- the POS availability refresh and its agreement with the contract id the POS serializer reports;
- the "is used" existence queries;
- the boolean toggle endpoints;
- the two batch-insert endpoints;
- the date formatters;
- the admin serializers (password rules, create, update, read side, login check);
- the admin views (listing sorted by name, promote/demote, activate/deactivate).

All tables live in one store, `CoreModels.Db`. It is a class with a single field `t: Tables`, a datatype holding one sequence per table in queryset order. The database constraints the code relies on are collected in `CoreModels.Valid`:

- unique primary keys;
- unique usernames;
- the non-nullable foreign keys the modelled rules follow point at existing rows: PosModel.company, POS.model, TradingAddress.costumer, Contract.costumer, and both keys of ContractPOS and ContractService (Country.created_by is not tracked);
- every country stored in the form `Country.save` gives it.

Each endpoint that changes the store is a method with `modifies db`. Its postcondition equates the returned response and the new store with a pure specification function of the old store (`XxxSpec`). The properties of each operation are proved about that function, partly in its own `ensures` and partly in lemmas beside it. Examples are:

- the error cases and the state left behind;
- that exactly one field of one row changes;
- that two calls restore the store;
- that `Valid` is preserved.

Outside inputs become parameters:

- `datetime.now()` becomes `today`;
- `uuid.uuid4()` becomes `uuid`;
- `request.user` becomes `actor`;
- Django's `authenticate` becomes a function parameter. `AdminsSerializers.ModelBackend` is the default backend it stands for.

A failed `get_object_or_404` is `Error.NotFound`, and a raised `ValidationError` is `Error.ValidationError`.

Files, one module each:

| file | module | models |
|---|---|---|
| common.dfy | Common | Option/Result/Outcome, primary keys, dates, the error kinds |
| text.dfy | Text | `str()` of a natural number and its parser, `split`, `upper`, slicing |
| tables.dfy | Table | a table as a sequence: lookup by key, save (update or insert), auto-increment |
| core_models.dfy | CoreModels | app/core/models.py |
| crm_serializers.dfy | CrmSerializers | the formatters and computed fields of app/crm/serializers.py |
| crm_views.dfy | CrmViews | the endpoints of app/crm/views.py |
| admins_serializers.dfy | AdminsSerializers | app/admins/serializers.py |
| admins_views.dfy | AdminsViews | the endpoints of app/admins/views.py |

## Model

| member | source | states |
|---|---|---|
| CoreModels.PercentValidator | app/core/models.py:9-11 | passes exactly for 0..100 inclusive, otherwise fails with "Invalid Shareholder" |
| CoreModels.PercentValidatorBounds | app/core/models.py:9-11 | the boundary values: 0 and 100 pass, -1 and 101 fail |
| CoreModels.Extension | app/core/models.py:16 | the last '.'-separated segment: contains no dot, and is either the whole name or the suffix after the last dot |
| CoreModels.ProfileImagePath | app/core/models.py:14-18 | for a uuid text, the path is "uploads/user/" + uuid + "." + extension |
| CoreModels.ContractFilePath | app/core/models.py:20-24 | for a uuid text, the path is "uploads/contracts/" + uuid + "." + extension |
| CoreModels.ExtensionExample | app/core/models.py:16 | "MyImage.jpg" has extension "jpg" |
| CoreModels.SaveUserSpec | app/core/models.py:50 | User.save succeeds iff no other user holds the username; it then writes the row (update by key or append); otherwise IntegrityError with the store unchanged |
| CoreModels.SaveUserValid | app/core/models.py:50 | a user save keeps the store consistent (keys, unique usernames, references) |
| CoreModels.SaveUserKeepsUsernamesUnique | app/core/models.py:50 | saving a user whose username is free keeps usernames unique |
| CoreModels.SaveUser | app/core/models.py:50 | the method performs SaveUserSpec on the store |
| CoreModels.NewUser | app/core/models.py:34-35 | the row create_user builds: the given key and username, the email as given or '' for none, the extra fields (name, title, address, phone, postal code, birth date, nationality, the three flags, created_by) carried over, no last login; a given password checks against the credential, and with no password no text does |
| CoreModels.CreateUserSpec | app/core/models.py:30-37 | a missing or empty username is exactly the ValueError case and stores nothing; on success a fresh key is returned and exactly one row, with the given fields and password, is appended; keeps Valid |
| CoreModels.CreateUser | app/core/models.py:30-37 | the method performs CreateUserSpec on the store |
| CoreModels.CreateSuperuserSpec | app/core/models.py:39-45 | fails exactly when create_user fails, storing nothing; otherwise it appends the create_user row with is_staff and is_superuser both true; keeps Valid |
| CoreModels.PromoteAppended | app/core/models.py:41-44 | the second save rewrites the row create_user appended into its staff and superuser form, and succeeds |
| CoreModels.CreateSuperuser | app/core/models.py:39-45 | the method performs CreateSuperuserSpec on the store |
| CoreModels.CountrySaveForm | app/core/models.py:86-92 | only the abbreviation changes; a non-empty one is kept; an empty one becomes the first min(3, len) characters of the name, upper-cased |
| CoreModels.CountrySaveIdempotent | app/core/models.py:86-92 | saving an already saved country changes nothing more |
| CoreModels.CountryGermanyExample | app/core/models.py:91 | "Germany" with no abbreviation gets "GER" |
| CoreModels.SaveCountry | app/core/models.py:86-92 | writes the saved form of the country to its table and keeps Valid |
| CoreModels.UpsertKeepsSaved | app/core/models.py:86-92 | writing a country in saved form keeps every stored country in saved form |
| CoreModels.NewMarketingGoal | app/core/models.py:121-127 | without an explicit status a goal has code "W", displayed "In Waiting Queue" |
| CoreModels.SerialNumberLength | app/core/models.py:192 | a length is known only for an existing model (model.company.serial_number_length) |
| CoreModels.PosClean | app/core/models.py:170-197 | full_clean of a POS: passes iff the serial number is non-blank and exactly as long as the model's company requires; when the company is known, a blank serial is reported as a blank-field error and a wrong length as "Serial number length is not valid", both collected |
| CoreModels.PosCleanIgnoresFlags | app/core/models.py:191-194 | the check depends on the serial number and the model only |
| CoreModels.PosCleanExample | app/core/models.py:191-194 | with length 8, "12345678" passes and "1234567890" is rejected |
| CoreModels.SavePosSpec | app/core/models.py:196-198 | the outcome is full_clean's (blank serial and length check); the row is written only on a pass, otherwise the store is unchanged |
| CoreModels.SavePosValid | app/core/models.py:196-198 | a POS save keeps the store consistent (keys, references) |
| CoreModels.SavePos | app/core/models.py:196-198 | the method performs SavePosSpec on the store |
| CoreModels.CostumerFieldErrors | app/core/models.py:203-264 | no field error iff trading, legal and bank names are non-blank, legal_entity is one of the seven choices, and a given shareholder lies in 0..100 |
| CoreModels.CostumerClean | app/core/models.py:282-285 | passes iff the business bank name equals the legal name |
| CoreModels.CostumerFullClean | app/core/models.py:288 | passes iff there is no field error and the bank name equals the legal name; a bank-name mismatch is always among the reported violations |
| CoreModels.CostumerSaveFormFrame | app/core/models.py:289-293 | the clearing touches only partner_name, partner_address, partner_nationality and shareholder, and on "ST" sets all four to None |
| CoreModels.ValidatedCostumerNeverCleared | app/core/models.py:288-293 | a costumer that passed full_clean is stored with its partner fields as submitted |
| CoreModels.SoleTraderKeepsPartnerExample | app/core/models.py:289 | a validated "Sole Trader" keeps its partner name |
| CoreModels.CostumerSaveForm | app/core/models.py:289-293 | as written: the result differs from the submitted costumer at most in partner_name, partner_address, partner_nationality and shareholder, and equals it unless legal_entity is "ST" |
| CoreModels.CostumerSaveFormIntended | app/core/models.py:289-293 | corrected clearing keyed on "Sole Trader": the result differs from the submitted costumer at most in the four partner fields; a Sole Trader keeps no partner name, address, nationality or shareholder; any other costumer is stored unchanged |
| CoreModels.IntendedClearingExample | app/core/models.py:289-293 | with the corrected key, a validated Sole Trader with a partner is stored without one |
| CoreModels.IntendedClearingKeepsValid | app/core/models.py:287-294 | the corrected clearing keeps a validated costumer valid and is idempotent |
| CoreModels.SaveCostumerSpec | app/core/models.py:287-294 | validation runs on the submitted fields; on success the cleared form is written; on failure nothing is stored; keeps Valid |
| CoreModels.SaveCostumer | app/core/models.py:287-294 | the method performs SaveCostumerSpec on the store |
| CrmSerializers.DateToString | app/crm/serializers.py:9-21 | the output splits on '-' into exactly three parts: the unpadded year, and month and day each as digits that read back as the number |
| CrmSerializers.DateToStringRoundTrip | app/crm/serializers.py:9-21 | reading the output back gives the same date |
| CrmSerializers.DateToStringLength | app/crm/serializers.py:9-21 | for years 1000..9999 the output has 10 characters |
| CrmSerializers.DateToStringExample | app/crm/serializers.py:9-21 | (2020, 1, 5) prints "2020-01-05" |
| CrmSerializers.DateTimeToStringLosesMonth | app/crm/serializers.py:32-38 | as written: for a day below 10, datetimes that differ only in their month print the same |
| CrmSerializers.DateTimeToStringDayBelowTen | app/crm/serializers.py:24-38 | as written: 2020-12-05 12:30 prints "2020-05-5   12:30" |
| CrmSerializers.DateTimeToStringUnpaddedTime | app/crm/serializers.py:24-38 | as written: 2020-03-15 09:05 prints "2020-03-15   9:5" |
| CrmSerializers.DateTimeToStringReadsDayAsMonth | app/crm/serializers.py:35-38 | as written: for a day below 10 the text reads back with the day in the month's place |
| CrmSerializers.DateTimeToStringMisread | app/crm/serializers.py:35-38 | as written: the text for 2020-12-05 12:30 reads back as 2020-05-05 12:30 |
| CrmSerializers.DateTimeToString | app/crm/serializers.py:24-38 | as written: from day 10 on it prints exactly what the corrected formatter prints; for a day below 10 it prints something else |
| CrmSerializers.DateTimeToStringIntended | app/crm/serializers.py:24-38 | corrected formatter, with the date part formatted as in dateToString: the text reads back to the same datetime |
| CrmSerializers.GetContractId | app/crm/serializers.py:120-128 | 0 iff no ContractPOS row of the POS has a contract whose window contains today; otherwise the id of a contract running today that is linked to the POS |
| CrmSerializers.GetContractIdFirst | app/crm/serializers.py:122-127 | the result is the contract of the first qualifying row, in store order |
| CrmSerializers.ModelCount | app/crm/serializers.py:79-81 | at most the number of models; 0 iff no model belongs to the company |
| CrmSerializers.ModelCountAppend | app/crm/serializers.py:79-81 | adding a model of the company raises the count by one; a model of another company leaves it |
| CrmViews.NewPos | app/crm/views.py:85 | the row serializer.save builds: the fresh key, the chosen model, the sent serial, the actor as creator, and the model defaults ownership and is_active true, status false for omitted flags |
| CrmViews.PerformCreatePosSpec | app/crm/views.py:78-85 | succeeds iff the serial is non-blank and exactly as long as the chosen model's company requires; an unknown model is NotFound; a wrong length is "Invalid Serial Number Length"; failures store nothing; success appends one POS under a fresh key with the actor as creator; keeps Valid |
| CrmViews.PerformCreatePos | app/crm/views.py:78-85 | the method performs PerformCreatePosSpec on the store |
| CrmViews.ApplyPatch | app/crm/views.py:97 | the patched row keeps its key, model and creator and takes the sent serial; a body with only the serial changes nothing else |
| CrmViews.PartialUpdatePosSpec | app/crm/views.py:91-97 | unknown POS is NotFound; any failure leaves the store unchanged; keeps Valid |
| CrmViews.PartialUpdatePosEffect | app/crm/views.py:93-97 | the serial is checked against the POS's existing model; the update passes iff the serial fits; it rewrites only that row and keeps its model; a mismatch is "Invalid Serial Number Length" |
| CrmViews.PartialUpdatePos | app/crm/views.py:91-97 | the method performs PartialUpdatePosSpec on the store |
| CrmViews.PosFits | app/core/models.py:170-197 | one flag per POS row, up exactly when the row's serial is non-blank and its length is the one its model's company requires (so exactly when saving the row would pass) |
| CrmViews.FirstUnfit | app/crm/views.py:99-114 | the first lowered flag from a position on, with every earlier flag up; none when all are up |
| CrmViews.Refreshed | app/crm/views.py:102-113 | only status changes; it is true iff no ContractPOS of the POS belongs to a contract running today; the save gate gives the same result as for the unrefreshed row |
| CrmViews.RefreshAll | app/crm/views.py:99-114 | only the status of POS rows changes; the refresh passes iff every POS passes full_clean (a non-blank serial of its company's length); then each status is false iff the POS has a ContractPOS whose contract runs today; on the first unfit POS it stops with the earlier rows already refreshed |
| CrmViews.RefreshAllPass | app/crm/views.py:99-114 | when every POS fits, the whole table is refreshed and the response is a pass |
| CrmViews.RefreshAllStops | app/crm/views.py:99-114 | when POS k is the first that no longer fits, the refresh returns its error with only the first k rows refreshed |
| CrmViews.RefreshAllValid | app/crm/views.py:99-114 | the refresh keeps Valid |
| CrmViews.RefreshPrefixIds | app/crm/views.py:101-114 | a partly refreshed store keeps the POS keys in order |
| CrmViews.RefreshPrefixValid | app/crm/views.py:101-114 | a partly refreshed store keeps Valid |
| CrmViews.RefreshStep | app/crm/views.py:109-114 | saving the i-th refreshed POS passes the same check as the original row and extends the refreshed prefix by one |
| CrmViews.HeldByRunningContract | app/crm/views.py:102-111 | the inner loop's found flag is true iff some ContractPOS of the POS has a contract with live_date <= today <= end_date |
| CrmViews.UpdateItemsStatus | app/crm/views.py:99-114 | the nested loop leaves the response and store given by RefreshAll |
| CrmViews.RefreshIdempotent | app/crm/views.py:99-114 | refreshing twice with the same today equals refreshing once |
| CrmViews.RefreshPrefixAgain | app/crm/views.py:99-114 | a refreshed prefix passes the same checks as the original and refreshing the same prefix again changes nothing |
| CrmViews.RefreshAgreesWithContractId | app/crm/views.py:108-113 | after a successful refresh a POS is available iff get_contract_id reports 0 for it |
| CrmViews.CountryIsUsed | app/crm/views.py:133-143 | unknown country is NotFound; otherwise used iff a user has it as nationality or a costumer has it as country, director nationality or partner nationality |
| CrmViews.CountryIsUsedIgnoresRegisteredCountry | app/crm/views.py:137-140 | a country referenced only as a registered_country reports not used |
| CrmViews.CompanyIsUsed | app/crm/views.py:151-158 | unknown company is NotFound; otherwise used iff some PosModel references it |
| CrmViews.CompanyIsUsedIffModelCount | app/crm/views.py:155 | a company is used iff its model_count is non-zero |
| CrmViews.PosModelIsUsed | app/crm/views.py:166-173 | unknown model is NotFound; otherwise used iff some POS references it |
| CrmViews.PosIsUsed | app/crm/views.py:181-188 | unknown POS is NotFound; otherwise used iff some ContractPOS references it |
| CrmViews.ActiveContractMeansUsed | app/crm/views.py:185 | a POS with a running contract is reported used |
| CrmViews.ServiceIsUsed | app/crm/views.py:196-203 | unknown service is NotFound; otherwise used iff some ContractService references it |
| CrmViews.ActivePosSpec | app/crm/views.py:212-216 | unknown POS is NotFound; any failure leaves the store unchanged; keeps Valid |
| CrmViews.ActivePosFlipsOne | app/crm/views.py:213-215 | while POS primary keys are unique, the toggle negates exactly is_active of that POS; it fails, changing nothing, when the POS's serial no longer fits |
| CrmViews.ActivePosInvolution | app/crm/views.py:213-215 | two successful toggles restore the store |
| CrmViews.ActivePos | app/crm/views.py:212-216 | the method performs ActivePosSpec on the store |
| CrmViews.ServiceAvailabilitySpec | app/crm/views.py:389-393 | NotFound with no change iff the service is unknown; otherwise it passes |
| CrmViews.ServiceAvailabilityFlipsOne | app/crm/views.py:390-392 | negates exactly the availability of that service, nothing else; keeps Valid |
| CrmViews.ServiceAvailabilityInvolution | app/crm/views.py:390-392 | two toggles restore the store |
| CrmViews.ServiceAvailability | app/crm/views.py:389-393 | the method performs ServiceAvailabilitySpec on the store |
| CrmViews.CountryCoverageSpec | app/crm/views.py:402-406 | NotFound with no change iff the country is unknown; otherwise it passes |
| CrmViews.CountryCoverageFlipsOne | app/crm/views.py:403-405 | negates exactly is_covered of that country, nothing else; keeps Valid |
| CrmViews.CountryCoverageInvolution | app/crm/views.py:403-405 | two toggles restore the store |
| CrmViews.CountryCoverage | app/crm/views.py:402-406 | the method performs CountryCoverageSpec on the store |
| CrmViews.AddAddresses | app/crm/views.py:417-419 | keeps the existing rows, adds exactly one row per address, and keeps key uniqueness |
| CrmViews.AddAddressesSnoc | app/crm/views.py:417-419 | one iteration appends the next address as a row of the costumer under the next free key |
| CrmViews.AddAddressesRows | app/crm/views.py:417-419 | the added rows carry the addresses in order, each owned by the costumer |
| CrmViews.TradingAddressCreateSpec | app/crm/views.py:415-420 | NotFound with no change iff the costumer is unknown; otherwise the addresses are appended as AddAddresses states |
| CrmViews.TradingAddressCreateValid | app/crm/views.py:415-420 | keeps Valid |
| CrmViews.TradingAddressCreate | app/crm/views.py:415-420 | the loop leaves the response and store given by TradingAddressCreateSpec |
| CrmViews.ServiceRowsSnoc | app/crm/views.py:430-435 | one more matching service row extends the in-order correspondence |
| CrmViews.PosRowsSnoc | app/crm/views.py:436-441 | one more matching POS row extends the in-order correspondence |
| CrmViews.AddServices | app/crm/views.py:430-435 | keeps the existing rows, adds at most one row per item, and ends in success or NotFound |
| CrmViews.AddServicesUnique | app/crm/views.py:430-435 | the added rows take fresh primary keys |
| CrmViews.AddServicesLength | app/crm/views.py:430-435 | a pass adds exactly one row per item |
| CrmViews.AddServicesKnown | app/crm/views.py:430-435 | with n rows added, the first n services exist |
| CrmViews.AddServicesStop | app/crm/views.py:430-431 | a failure stops at item n, the first unknown service |
| CrmViews.AddServicesOutcome | app/crm/views.py:430-435 | with n rows added, the first n services exist; it passes iff every item was added; otherwise item n is the unknown service that aborted the loop |
| CrmViews.AddServicesRows | app/crm/views.py:432-434 | the added rows are one per item got through, in order, each with the contract, the item's service, price and cost, and the actor |
| CrmViews.AddPoses | app/crm/views.py:436-441 | keeps the existing rows, adds at most one row per item, and ends in success or NotFound |
| CrmViews.AddPosesUnique | app/crm/views.py:436-441 | the added rows take fresh primary keys |
| CrmViews.AddPosesLength | app/crm/views.py:436-441 | a pass adds exactly one row per item |
| CrmViews.AddPosesKnown | app/crm/views.py:436-441 | with n rows added, the first n POS exist |
| CrmViews.AddPosesStop | app/crm/views.py:436-437 | a failure stops at item n, the first unknown POS |
| CrmViews.AddPosesOutcome | app/crm/views.py:436-441 | with n rows added, the first n POS exist; it passes iff every item was added; otherwise item n is the unknown POS that aborted the loop |
| CrmViews.AddPosesRows | app/crm/views.py:438-440 | the added rows are one per item got through, in order, each with the contract, the POS, its price, hardware and software costs, and the actor |
| CrmViews.AddServicesSnoc | app/crm/views.py:430-435 | after a successful prefix, the next item either adds its row or aborts |
| CrmViews.AddServicesStopped | app/crm/views.py:430-431 | once a prefix has aborted, later items change nothing |
| CrmViews.AddPosesSnoc | app/crm/views.py:436-441 | after a successful prefix, the next item either adds its row or aborts |
| CrmViews.AddPosesStopped | app/crm/views.py:436-437 | once a prefix has aborted, later items change nothing |
| CrmViews.ContractSolutionsSpec | app/crm/views.py:428-442 | unknown contract is NotFound with no change; the outcome is success or NotFound; only the two link tables change |
| CrmViews.AddServicesEffect | app/crm/views.py:430-435 | the services loop passes iff every service exists, then adds one row per item in order |
| CrmViews.AddPosesEffect | app/crm/views.py:436-441 | the POS loop passes iff every POS exists, then adds one row per item in order |
| CrmViews.ContractSolutionsEffect | app/crm/views.py:428-442 | succeeds iff the contract and every listed service and POS exist; then one ContractService per service and one ContractPOS per POS are appended, in order, carrying each item's amounts |
| CrmViews.ContractSolutionsPartialBatch | app/crm/views.py:430-437 | an unknown POS after valid services aborts with NotFound but leaves every service row stored |
| CrmViews.AddServicesRefer | app/crm/views.py:430-434 | every added row points at the contract and an existing service |
| CrmViews.AddPosesRefer | app/crm/views.py:436-440 | every added row points at the contract and an existing POS |
| CrmViews.ReplaceLinks | app/core/models.py:388-404 | link tables with unique keys and valid references keep the store Valid |
| CrmViews.ServiceLinksAfter | app/crm/views.py:430-435 | the service link table after the loop has unique keys and valid references |
| CrmViews.PosLinksAfter | app/crm/views.py:436-441 | the POS link table after the loop has unique keys and valid references |
| CrmViews.ContractSolutionsValid | app/crm/views.py:428-442 | keeps Valid, partial batches included |
| CrmViews.ContractSolutions | app/crm/views.py:428-442 | the two loops leave the response and store given by ContractSolutionsSpec |
| CrmViews.CostumerCreateSpec | app/crm/views.py:256-258 | the outcome is full_clean's; on success one new row under an unused key is appended, with created_by and last_updated_by both the actor; on failure nothing is stored |
| CrmViews.CostumerUpdateSpec | app/crm/views.py:260-262 | unknown costumer is NotFound; failures leave the store unchanged; keeps Valid |
| CrmViews.CostumerUpdateEffect | app/crm/views.py:260-262 | for an existing costumer the outcome is full_clean's on the sent fields under the stored key and audit fields; on a pass exactly that costumer's row becomes the saved form of those fields |
| CrmViews.CostumerUpdateKeepsLastUpdatedBy | app/crm/views.py:262 | an update keeps the stored last_updated_by and created_by, and its result does not depend on the actor |
| CrmViews.CostumerPerformCreate | app/crm/views.py:256-258 | the method performs CostumerCreateSpec on the store |
| CrmViews.CostumerPerformUpdate | app/crm/views.py:260-262 | the method performs CostumerUpdateSpec on the store |
| AdminsSerializers.AdminFieldErrors | app/admins/serializers.py:4-20 | PasswordTooShort is reported iff a non-empty password is shorter than 6; UsernameTaken iff another user holds the username; an unknown-reference error iff the body names a nationality no country holds; with no errors a full write carries username, email and password, the username is free, and any password has at least 6 characters |
| AdminsSerializers.CreateFields | app/admins/serializers.py:22-24 | a created admin is never a superuser and has no creator; absent title and is_active take the model defaults |
| AdminsSerializers.AdminCreateSpec | app/admins/serializers.py:22-24 | succeeds iff the input validates; a short password or a nationality no country holds is rejected and no user is created; success appends one user under a fresh key whose credential checks against the given password and whose nationality is null or an existing country; keeps Valid |
| AdminsSerializers.AdminCreate | app/admins/serializers.py:22-24 | the method performs AdminCreateSpec on the store |
| AdminsSerializers.Assign | app/admins/serializers.py:29 | the generic update writes the sent fields and keeps key, credential, superuser flag, creator and last login; an input with no fields keeps the user |
| AdminsSerializers.NewCredential | app/admins/serializers.py:28-33 | a non-empty password becomes the credential; an absent one keeps the stored credential |
| AdminsSerializers.AdminUpdateSpec | app/admins/serializers.py:26-34 | an invalid input, a nationality no country holds included, fails and stores nothing; keeps Valid |
| AdminsSerializers.OwnUsernameFree | app/core/models.py:50 | under unique usernames a user's own username is free for its own key |
| AdminsSerializers.SaveUserAt | app/core/models.py:50 | under unique keys, saving under the key of row i with a free username rewrites row i |
| AdminsSerializers.AdminUpdateEffect | app/admins/serializers.py:26-34 | a valid update succeeds and rewrites only the admin's row with the sent fields; the password is reset only when a non-empty one was sent |
| AdminsSerializers.AdminUpdate | app/admins/serializers.py:26-34 | the method performs AdminUpdateSpec on the store |
| AdminsSerializers.Nation | app/admins/serializers.py:36-37 | "None" for a user without nationality; for a nationality key that a country holds, the name of a country row with that key |
| AdminsSerializers.CreatedAdminNation | app/admins/serializers.py:22-37 | an admin created with a nationality shows the name of that country as its nation |
| AdminsSerializers.NationalityOf | app/admins/serializers.py:37 | the related country, found whenever the key exists |
| AdminsSerializers.SerializeAdmin | app/admins/serializers.py:4-11 | the view shows the user's key and username, with nation as get_nation gives it |
| AdminsSerializers.SerializeAdminShows | app/admins/serializers.py:9-14 | two users serialize alike iff they differ at most in password, is_superuser, created_by and last_login, none of which the view shows; in particular the write-only password never appears |
| AdminsSerializers.GetLastLog | app/admins/serializers.py:53-57 | None iff last_login is unset |
| AdminsSerializers.ParseLastLogParts | app/admins/serializers.py:55 | a "date   time" text with the right parts reads back to the datetime |
| AdminsSerializers.GetLastLogRoundTrip | app/admins/serializers.py:53-55 | the "Y/M/D   H:M" text reads back to the same last login |
| AdminsSerializers.GetLastLogExample | app/admins/serializers.py:55 | 2021-03-05 09:07 prints "2021/3/5   9:7", every part unpadded |
| AdminsSerializers.SerializeProfile | app/admins/serializers.py:40-57 | the profile extends the admin view with last_log, present iff last_login is, and reading it back gives last_login |
| AdminsSerializers.AuthFieldErrors | app/admins/serializers.py:61-65 | no field error iff both a non-blank username and a non-blank password are given |
| AdminsSerializers.AuthValidate | app/admins/serializers.py:67-80 | succeeds iff the fields validate and authenticate accepts the credentials; the result is the authenticated principal; otherwise "Authentication Failed" |
| AdminsSerializers.FindUsername | app/admins/serializers.py:71-75 | the first user with the username, or none when nobody holds it |
| AdminsSerializers.ModelBackend | app/admins/serializers.py:71-75 | accepts only an active user with that username whose credential checks against the password |
| AdminsSerializers.FindUsernameAppended | app/admins/serializers.py:71-75 | a new username is found at the appended row |
| AdminsSerializers.CreatedAdminCanLogIn | app/admins/serializers.py:22-24 | an admin just created, if active, logs in with the same username and password as that new user |
| AdminsViews.StrLeTotal | app/admins/views.py:60 | the string order is total |
| AdminsViews.StrLeTrans | app/admins/views.py:60 | the string order is transitive |
| AdminsViews.StrLeAntisymmetric | app/admins/views.py:60 | the string order is antisymmetric |
| AdminsViews.NameLeTotal | app/admins/views.py:60 | the name order (nulls first) is total |
| AdminsViews.NameLeTrans | app/admins/views.py:60 | the name order is transitive |
| AdminsViews.Insert | app/admins/views.py:60 | insertion adds exactly the one user |
| AdminsViews.InsertSorted | app/admins/views.py:60 | inserting into a name-sorted list keeps it sorted, and a name at or before the inserted one and all others stays at or before the result |
| AdminsViews.SortByName | app/admins/views.py:60 | the result is sorted by name and is a permutation of the input |
| AdminsViews.ProfilesSort | app/admins/views.py:56-60 | sorting the users by name lists the same profiles, with the same multiplicities |
| AdminsViews.ListUsers | app/admins/views.py:51-60 | one profile per user: the result is a permutation of the profiles of the user table, each entry the serialization of some user, ordered by name |
| AdminsViews.PromotingAdminSpec | app/admins/views.py:69-73 | NotFound with no change iff the user is unknown; keeps Valid |
| AdminsViews.PromotingAdminFlipsOne | app/admins/views.py:70-72 | negates exactly is_staff of that user; all other users and fields stay unchanged |
| AdminsViews.PromotingAdminInvolution | app/admins/views.py:69-73 | two calls restore the store |
| AdminsViews.PromotingAdmin | app/admins/views.py:69-73 | the method performs PromotingAdminSpec on the store |
| AdminsViews.DeactiveAdminSpec | app/admins/views.py:82-86 | NotFound with no change iff the user is unknown; keeps Valid |
| AdminsViews.DeactiveAdminFlipsOne | app/admins/views.py:83-85 | negates exactly is_active of that user; all other users and fields stay unchanged |
| AdminsViews.DeactiveAdminInvolution | app/admins/views.py:82-86 | two calls restore the store |
| AdminsViews.DeactiveAdmin | app/admins/views.py:82-86 | the method performs DeactiveAdminSpec on the store |
| AdminsViews.FindUsernameHolder | app/core/models.py:50 | under unique usernames the lookup finds the one holder |
| AdminsViews.DeactivatedAdminCannotLogIn | app/admins/views.py:84 | after deactivation, the default backend refuses that admin whatever password is given |
| Table.Find | app/crm/views.py:93 | the get_object_or_404 lookup: the first row with the key, or none iff the key is absent |
| Table.FindAppended | app/core/models.py:41-44 | a row appended under a fresh key is the one the lookup finds for that key |
| Table.NextId | app/core/models.py:30-37 | the auto-increment key is not in use |
| Table.Upsert | app/core/models.py:198 | Django's save: when the key is present the first row holding it is replaced by the new row; when absent the row is appended |
| Table.UpsertIds | app/core/models.py:198 | save (update by key or insert) keeps keys unique and keeps every key present |
| Text.ParseNatToString | app/crm/serializers.py:21 | str() of a natural number reads back to that number |

## Left out

- Authentication, tokens and permission classes are framework plumbing. This covers TokenAuthentication, IsAdminUser, the `prermission_classes` spellings and the token issued by CreateTokenView.
- Password hashing is modelled as storing the raw text. `CheckPassword` is equality with it.
- `authenticate` is a parameter of `AuthValidate`. `ModelBackend` models Django's default backend, which is not code of this repository.
- UserManager.create_user: `normalize_email` (which lower-cases the domain part) is not modelled. The email is stored as given.
- Field-format validators are not modelled: max_length on the CharFields, EmailField format, and CharField whitespace trimming.
- The Costumer business_type choices are left out, so `business_type` is not a field of the model.
- The many other required Costumer text fields (addresses, phone numbers, bank details) are left out. Only trading_name, legal_name, legal_entity, business_bank_name and shareholder are checked.
- The other nullable fields of the records that no rule reads are not modelled. Examples are the notes and the email and website fields.
- PositiveIntegerField's own non-negativity check on shareholder is subsumed by percent_validator. face_to_face_saled uses the same validator; creating contracts is not part of this model.
- Decimal prices and costs are modelled as `real`. The float contract rates are not modelled. No rounding to two decimal places is modelled.
- Upper-casing (`Text.Upper`) covers ASCII letters only. Python's Unicode case mapping is not modelled.
- `datetime.now()` is one `today` per refresh. The source reads the clock once per POS, so a refresh that spans midnight is not modelled.
- `uuid.uuid4()` is a parameter. `ProfileImagePath` and `ContractFilePath` state their result for a well-formed uuid text.
- A missing key in a request body (KeyError, an HTTP 500) is not modelled. `request.data['serial_number']`, `i['address']`, `i['id']` and the `services`/`poses` lists are inputs that are always present.
- Deletions, cascades and SET_NULL are out of scope. So are the list/retrieve endpoints other than ListUsersView, and the HTTP response bodies; responses are success, NotFound or ValidationError.
- Country name uniqueness is not part of `Valid`. No modelled operation depends on it.
- The foreign keys of Costumer to Country (nullable, SET_NULL) are not checked on save.
- `GetContractId` assumes the contract row of every ContractPOS exists, which `Valid` guarantees. The source's `Contract.objects.get` would raise otherwise, and the model then reads the row as not running.
- `PerformCreatePosSpec` checks a blank serial number first, reporting it as a blank-field error. PosSerializer's other field validation of the request body (the type choices, max_length) is not modelled.
- `PartialUpdatePosSpec` applies only serial_number and the other writable flags in `PosPatch`. The model field cannot be changed by the patch because the serializer declares it read-only.
- `AdminsSerializers.AdminUpdate` requires that the edited admin exists. ManageUserView always edits the authenticated user, who exists.
- `AdminsSerializers.Nation` prints "None" when the nationality key dangles. The admin create and update endpoints refuse such a key, and the database's SET_NULL nulls it when a country is deleted; `Valid` does not record the nationality key, so the model does not exclude that state.
- `AdminsViews.ListUsers` orders names by code point with NULL names first. The actual order depends on the database collation and NULL placement (PostgreSQL puts NULLs last in ascending order), which this model does not fix. Rows with equal names are not ordered further.
- Upload fields (image, pob, kyc files and the contract files) are not modelled beyond the path builders.
- The migration moving serial_number_length onto PosModel is not part of this model. The company's field in models.py is followed.
- CountryIsUsed: the code is followed. It does not consult `registered_country`, and `CountryIsUsedIgnoresRegisteredCountry` states the consequence.

## Findings

| source | as written | input that shows it | evidently intended | confidence | as-written member | corrected member |
|---|---|---|---|---|---|---|
| app/core/models.py:289 | Costumer.save clears the partner fields when legal_entity == "ST", but "ST" is not one of the legal_entity choices, so full_clean rejects it first and the clearing never happens | a Sole Trader with partner_name "p" and shareholder 40 is stored with its partner details | clear the partner fields of a "Sole Trader" | not executed | CoreModels.ValidatedCostumerNeverCleared | CoreModels.IntendedClearingExample |
| app/crm/serializers.py:35-36 | for a day below 10, dateTimeToString assigns '0' + day to month, so the month is lost and the day prints unpadded | 2020-12-05 12:30 prints "2020-05-5   12:30", which reads back as 5 May | pad the day into the day variable, as dateToString does | not executed | CrmSerializers.DateTimeToStringMisread | CrmSerializers.DateTimeToStringIntended |
