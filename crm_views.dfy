/** app/crm/views.py: the POS create/update gates and the availability refresh,
    the "is used" queries, the boolean toggles, the batch inserts and the
    costumer create/update hooks. The acting user and "today" are parameters. */
module CrmViews {
  import opened Common
  import opened Table
  import opened CoreModels
  import opened CrmSerializers

  // ---------------------------------------------------------------------------
  // PosViewSet.perform_create
  // ---------------------------------------------------------------------------

  /** The validated fields of a POS creation request (model is passed apart). */
  datatype PosInput = PosInput(
    serialNumber: string, posType: PosType, note: Option<string>,
    ownership: Option<bool>, isActive: Option<bool>, status: Option<bool>)

  /** The row the serializer builds, with the model defaults for omitted flags. */
  function NewPos(id: Pk, input: PosInput, model: Pk, actor: Pk): (p: POS)
    ensures p.id == id && p.model == model && p.serialNumber == input.serialNumber
    ensures p.createdBy == Some(actor)
    ensures input.ownership.None? ==> p.ownership
    ensures input.isActive.None? ==> p.isActive
    ensures input.status.None? ==> !p.status
  {
    POS(id, input.serialNumber, input.posType, model, input.note,
        OrElse(input.ownership, true), OrElse(input.isActive, true), OrElse(input.status, false),
        Some(actor))
  }

  /** POST /pos: the serializer refuses a blank serial, the model is looked up
      (404), its company's length is compared, and only then the row is saved. */
  function PerformCreatePosSpec(t: Tables, model: Pk, input: PosInput, actor: Pk): (r: (Result<Pk, Error>, Tables))
    ensures r.0.Ok? <==>
      input.serialNumber != [] && SerialNumberLength(t, model) == Some(|input.serialNumber|)
    ensures r.0.Err? ==> r.1 == t
    ensures input.serialNumber != [] && model !in Ids(t.posModels, PosModelKey) ==> r.0 == Err(NotFound)
    ensures input.serialNumber != [] && SerialNumberLength(t, model).Some?
            && SerialNumberLength(t, model) != Some(|input.serialNumber|) ==>
      r.0 == Err(ValidationError([InvalidSerialNumberLength]))
    ensures r.0.Ok? ==> r.0.value !in Ids(t.poses, PosKey)
    ensures r.0.Ok? ==> r.1 == t.(poses := t.poses + [NewPos(r.0.value, input, model, actor)])
    ensures Valid(t) ==> Valid(r.1)
  {
    if input.serialNumber == [] then (Err(ValidationError([BlankField("serial_number")])), t)
    else match SerialNumberLength(t, model)
      case None => (Err(NotFound), t)
      case Some(n) =>
        if |input.serialNumber| != n then (Err(ValidationError([InvalidSerialNumberLength])), t)
        else
          var p := NewPos(NextId(t.poses, PosKey), input, model, actor);
          // POS.save re-runs the same length check, which cannot fail here
          SavePosValid(t, p);
          (Ok(p.id), SavePosSpec(t, p).1)
  }

  method PerformCreatePos(db: Db, model: Pk, input: PosInput, actor: Pk) returns (r: Result<Pk, Error>)
    modifies db
    ensures (r, db.t) == PerformCreatePosSpec(old(db.t), model, input, actor)
  {
    if input.serialNumber == [] {
      return Err(ValidationError([BlankField("serial_number")]));
    }
    var length := SerialNumberLength(db.t, model);
    if length.None? {
      return Err(NotFound);
    }
    if |input.serialNumber| != length.value {
      return Err(ValidationError([InvalidSerialNumberLength]));
    }
    var pos := NewPos(NextId(db.t.poses, PosKey), input, model, actor);
    var saved := SavePos(db, pos);
    assert saved.Pass?;
    r := Ok(pos.id);
  }

  // ---------------------------------------------------------------------------
  // PosViewSet.partial_update
  // ---------------------------------------------------------------------------

  /** A PATCH body: serial_number is read by the view itself; model is read-only
      in PosSerializer, so it cannot be changed here. */
  datatype PosPatch = PosPatch(
    serialNumber: string, posType: Option<PosType>, note: Option<Option<string>>,
    ownership: Option<bool>, isActive: Option<bool>, status: Option<bool>)

  function ApplyPatch(p: POS, patch: PosPatch): (r: POS)
    ensures r.id == p.id && r.model == p.model && r.createdBy == p.createdBy
    ensures r.serialNumber == patch.serialNumber
    ensures patch == PosPatch(patch.serialNumber, None, None, None, None, None) ==>
      r == p.(serialNumber := patch.serialNumber)
  {
    p.(serialNumber := patch.serialNumber,
       posType := match patch.posType case None => p.posType case Some(x) => x,
       note := match patch.note case None => p.note case Some(x) => x,
       ownership := OrElse(patch.ownership, p.ownership),
       isActive := OrElse(patch.isActive, p.isActive),
       status := OrElse(patch.status, p.status))
  }

  /** PATCH /pos/<pk>: the new serial is measured against the company of the
      POS's current model. */
  function PartialUpdatePosSpec(t: Tables, pk: Pk, patch: PosPatch): (r: (Outcome<Error>, Tables))
    ensures pk !in Ids(t.poses, PosKey) ==> r == (Fail(NotFound), t)
    ensures r.0.Fail? ==> r.1 == t
    ensures Valid(t) ==> Valid(r.1)
  {
    match Find(t.poses, PosKey, pk)
    case None => (Fail(NotFound), t)
    case Some(i) =>
      var p := t.poses[i];
      if SerialNumberLength(t, p.model) != Some(|patch.serialNumber|) then
        (Fail(ValidationError([InvalidSerialNumberLength])), t)
      else if patch.serialNumber == [] then (Fail(ValidationError([BlankField("serial_number")])), t)
      else
        SavePosValid(t, ApplyPatch(p, patch));
        SavePosSpec(t, ApplyPatch(p, patch))
  }

  /** On a consistent store the update succeeds exactly when the serial fits the
      current model's company, and then rewrites that one row, model unchanged. */
  lemma PartialUpdatePosEffect(t: Tables, pk: Pk, patch: PosPatch, i: nat)
    requires Valid(t) && i < |t.poses| && t.poses[i].id == pk
    ensures var r := PartialUpdatePosSpec(t, pk, patch);
      && (r.0.Pass? <==> patch.serialNumber != [] && SerialNumberLength(t, t.poses[i].model) == Some(|patch.serialNumber|))
      && (r.0.Pass? ==> r.1 == t.(poses := t.poses[i := ApplyPatch(t.poses[i], patch)]))
      && (r.0.Pass? ==> r.1.poses[i].model == t.poses[i].model && r.1.poses[i].serialNumber == patch.serialNumber)
      && (SerialNumberLength(t, t.poses[i].model) != Some(|patch.serialNumber|) ==>
            r.0 == Fail(ValidationError([InvalidSerialNumberLength])))
  {
    FindUnique(t.poses, PosKey, i);
    UpsertAt(t.poses, PosKey, i, ApplyPatch(t.poses[i], patch));
  }

  method PartialUpdatePos(db: Db, pk: Pk, patch: PosPatch) returns (r: Outcome<Error>)
    modifies db
    ensures (r, db.t) == PartialUpdatePosSpec(old(db.t), pk, patch)
  {
    var i := Find(db.t.poses, PosKey, pk);
    if i.None? {
      return Fail(NotFound);
    }
    var pos := db.t.poses[i.value];
    if SerialNumberLength(db.t, pos.model) != Some(|patch.serialNumber|) {
      return Fail(ValidationError([InvalidSerialNumberLength]));
    }
    if patch.serialNumber == [] {
      return Fail(ValidationError([BlankField("serial_number")]));
    }
    r := SavePos(db, ApplyPatch(pos, patch));
  }

  // ---------------------------------------------------------------------------
  // PosViewSet.update_items_status
  // ---------------------------------------------------------------------------

  /** A POS with its availability recomputed: free unless a contract running
      today holds it. */
  function Refreshed(t: Tables, p: POS, today: Date): (r: POS)
    ensures r == p.(status := r.status)
    ensures r.status <==> !InActiveContract(t.contractPoses, t.contracts, p.id, today)
    ensures PosClean(t, r) == PosClean(t, p)
  {
    p.(status := !InActiveContract(t.contractPoses, t.contracts, p.id, today))
  }

  /** The store once the first k POS rows (in queryset order) have been refreshed. */
  function RefreshPrefix(t: Tables, today: Date, k: nat): Tables
    requires k <= |t.poses|
  {
    t.(poses := seq(|t.poses|, j requires 0 <= j < |t.poses| =>
                      if j < k then Refreshed(t, t.poses[j], today) else t.poses[j]))
  }

  /** For each POS row, whether its save would pass full_clean. */
  function PosFits(t: Tables): (f: seq<bool>)
    ensures |f| == |t.poses|
    ensures forall j :: 0 <= j < |f| ==> (f[j] <==> PosClean(t, t.poses[j]).Pass?)
    ensures forall j :: 0 <= j < |f| ==>
      (f[j] <==> t.poses[j].serialNumber != [] && SerialNumberLength(t, t.poses[j].model) == Some(|t.poses[j].serialNumber|))
  {
    seq(|t.poses|, j requires 0 <= j < |t.poses| => PosClean(t, t.poses[j]).Pass?)
  }

  /** The first position from `from` on whose flag is down. */
  function FirstUnfit(f: seq<bool>, from: nat): (r: Option<nat>)
    requires from <= |f|
    ensures r.Some? ==> from <= r.value < |f| && !f[r.value]
    ensures r.Some? ==> forall j :: from <= j < r.value ==> f[j]
    ensures r.None? ==> forall j :: from <= j < |f| ==> f[j]
    decreases |f| - from
  {
    if from == |f| then None
    else if !f[from] then Some(from)
    else FirstUnfit(f, from + 1)
  }

  /** What update_items_status leaves behind: every POS refreshed and saved in
      order, stopping at the first one whose save raises. */
  function RefreshAll(t: Tables, today: Date): (r: (Outcome<Error>, Tables))
    ensures r.1 == t.(poses := r.1.poses) && |r.1.poses| == |t.poses|
    ensures forall j :: 0 <= j < |t.poses| ==> r.1.poses[j] == t.poses[j].(status := r.1.poses[j].status)
    ensures r.0.Pass? <==> forall j :: 0 <= j < |t.poses| ==> PosClean(t, t.poses[j]).Pass?
    ensures r.0.Pass? ==> forall j :: 0 <= j < |t.poses| ==>
      (r.1.poses[j].status <==> !InActiveContract(t.contractPoses, t.contracts, t.poses[j].id, today))
    ensures r.0.Fail? ==> exists k :: (0 <= k < |t.poses|
      && PosClean(t, t.poses[k]).Fail? && r == (PosClean(t, t.poses[k]), RefreshPrefix(t, today, k))
      && (forall j :: 0 <= j < k ==> PosClean(t, t.poses[j]).Pass?))
  {
    match FirstUnfit(PosFits(t), 0)
    case None => (Pass, RefreshPrefix(t, today, |t.poses|))
    case Some(k) => (PosClean(t, t.poses[k]), RefreshPrefix(t, today, k))
  }

  /** When every row passes, the whole table is refreshed. */
  lemma RefreshAllPass(t: Tables, today: Date)
    requires forall j :: 0 <= j < |t.poses| ==> PosFits(t)[j]
    ensures RefreshAll(t, today) == (Pass, RefreshPrefix(t, today, |t.poses|))
  {
    assert FirstUnfit(PosFits(t), 0).None?;
  }

  /** When row k is the first to fail, the refresh stops there. */
  lemma RefreshAllStops(t: Tables, today: Date, k: nat)
    requires k < |t.poses| && !PosFits(t)[k]
    requires forall j :: 0 <= j < k ==> PosFits(t)[j]
    ensures RefreshAll(t, today) == (PosClean(t, t.poses[k]), RefreshPrefix(t, today, k))
  {
    assert FirstUnfit(PosFits(t), 0) == Some(k);
  }

  /** The refresh keeps every store invariant. */
  lemma RefreshAllValid(t: Tables, today: Date)
    requires Valid(t)
    ensures Valid(RefreshAll(t, today).1)
  {
    match FirstUnfit(PosFits(t), 0)
    case None => RefreshPrefixValid(t, today, |t.poses|);
    case Some(k) => RefreshPrefixValid(t, today, k);
  }

  lemma RefreshPrefixIds(t: Tables, today: Date, k: nat)
    requires k <= |t.poses|
    ensures Ids(RefreshPrefix(t, today, k).poses, PosKey) == Ids(t.poses, PosKey)
  {
    var t' := RefreshPrefix(t, today, k);
    assert forall j :: 0 <= j < |t.poses| ==> t'.poses[j].id == t.poses[j].id;
  }

  lemma RefreshPrefixValid(t: Tables, today: Date, k: nat)
    requires k <= |t.poses|
    ensures Valid(t) ==> Valid(RefreshPrefix(t, today, k))
  {
    var t' := RefreshPrefix(t, today, k);
    RefreshPrefixIds(t, today, k);
    assert forall j :: 0 <= j < |t.poses| ==> t'.poses[j].model == t.poses[j].model;
  }

  /** Saving the refreshed POS at position i of a half-refreshed store passes the
      same gate as the original row and writes position i. */
  lemma RefreshStep(t: Tables, today: Date, i: nat)
    requires Unique(Ids(t.poses, PosKey)) && i < |t.poses|
    ensures var ti := RefreshPrefix(t, today, i);
      SavePosSpec(ti, Refreshed(t, t.poses[i], today)) ==
        (PosClean(t, t.poses[i]),
         if PosClean(t, t.poses[i]).Pass? then RefreshPrefix(t, today, i + 1) else ti)
  {
    var ti := RefreshPrefix(t, today, i);
    var p := Refreshed(t, t.poses[i], today);
    RefreshPrefixIds(t, today, i);
    assert ti.poses[i] == t.poses[i];
    UpsertAt(ti.poses, PosKey, i, p);
    assert ti.poses[i := p] == RefreshPrefix(t, today, i + 1).poses;
  }

  /** The inner loop of update_items_status: walk the ContractPOS rows of this
      POS until one belongs to a contract running today. */
  method HeldByRunningContract(links: seq<ContractPOS>, contracts: seq<Contract>, pos: Pk, today: Date)
    returns (found: bool)
    ensures found == InActiveContract(links, contracts, pos, today)
  {
    found := false;
    var j := 0;
    while j < |links|
      invariant 0 <= j <= |links| && !found
      invariant forall k :: 0 <= k < j ==> !ActiveFor(links[k], contracts, pos, today)
    {
      if links[j].pos == pos {
        var contract := Get(contracts, ContractKey, links[j].contract);
        if contract.Some? && DateLe(contract.value.liveDate, today) && DateLe(today, contract.value.endDate) {
          assert ActiveFor(links[j], contracts, pos, today);
          found := true;
          return;
        }
      }
      j := j + 1;
    }
  }

  /** update_items_status, as the view runs it: for each POS, scan its
      ContractPOS rows for a contract running today, set status, save. */
  method UpdateItemsStatus(db: Db, today: Date) returns (r: Outcome<Error>)
    requires Unique(Ids(db.t.poses, PosKey))
    modifies db
    ensures (r, db.t) == RefreshAll(old(db.t), today)
  {
    ghost var t0 := db.t;
    ghost var fits := PosFits(t0);
    var all := db.t.poses;
    var i := 0;
    while i < |all|
      invariant 0 <= i <= |all| && all == t0.poses
      invariant db.t == RefreshPrefix(t0, today, i)
      invariant forall j :: 0 <= j < i ==> fits[j]
    {
      var pos := all[i];
      var found := HeldByRunningContract(db.t.contractPoses, db.t.contracts, pos.id, today);
      if found {
        pos := pos.(status := false);
      } else {
        pos := pos.(status := true);
      }
      assert pos == Refreshed(t0, t0.poses[i], today);
      RefreshStep(t0, today, i);
      var saved := SavePos(db, pos);
      if saved.Fail? {
        RefreshAllStops(t0, today, i);
        return saved;
      }
      i := i + 1;
    }
    RefreshAllPass(t0, today);
    r := Pass;
  }

  /** Running the refresh twice on the same day changes nothing the first run did not. */
  lemma RefreshIdempotent(t: Tables, today: Date)
    ensures RefreshAll(RefreshAll(t, today).1, today) == RefreshAll(t, today)
  {
    match FirstUnfit(PosFits(t), 0)
    case None =>
      RefreshPrefixAgain(t, today, |t.poses|);
    case Some(k) =>
      RefreshPrefixAgain(t, today, k);
      assert RefreshPrefix(t, today, k).poses[k] == t.poses[k];
  }

  /** A refreshed prefix passes the same gates and refreshes to itself. */
  lemma RefreshPrefixAgain(t: Tables, today: Date, k: nat)
    requires k <= |t.poses|
    ensures var u := RefreshPrefix(t, today, k);
      PosFits(u) == PosFits(t) && RefreshPrefix(u, today, k) == u
  {
    var u := RefreshPrefix(t, today, k);
    forall j | 0 <= j < |t.poses| ensures PosClean(u, u.poses[j]) == PosClean(t, t.poses[j]) {
      PosCleanIgnoresFlags(t, u.poses[j], t.poses[j]);
    }
    assert PosFits(u) == PosFits(t);
    assert RefreshPrefix(u, today, k).poses == u.poses;
  }

  /** The refresh and get_contract_id agree: a POS is marked unavailable exactly
      when the serializer reports a contract for it. */
  lemma RefreshAgreesWithContractId(t: Tables, today: Date, j: nat)
    requires RefreshAll(t, today).0.Pass? && j < |t.poses|
    ensures RefreshAll(t, today).1.poses[j].status <==>
            GetContractId(t.contractPoses, t.contracts, t.poses[j].id, today) == 0
  {
  }

  // ---------------------------------------------------------------------------
  // The five "is used" queries
  // ---------------------------------------------------------------------------

  function UserNationality(u: User): Option<Pk> { u.nationality }
  function CostumerCountry(c: Costumer): Option<Pk> { c.country }
  function DirectorNationality(c: Costumer): Option<Pk> { c.directorNationality }
  function PartnerNationality(c: Costumer): Option<Pk> { c.partnerNationality }
  function ModelCompany(m: PosModel): Pk { m.company }
  function PosModelOf(p: POS): Pk { p.model }
  function LinkedPos(cp: ContractPOS): Pk { cp.pos }
  function LinkedService(cs: ContractService): Pk { cs.service }

  /** CountryIsUsed.get: 404 for an unknown country; otherwise used when a user
      has it as nationality or a costumer as country, director nationality or
      partner nationality. */
  function CountryIsUsed(t: Tables, pk: Pk): (r: Result<bool, Error>)
    ensures r.Err? <==> pk !in Ids(t.countries, CountryKey)
    ensures r.Err? ==> r.error == NotFound
    ensures r.Ok? ==> (r.value <==>
      || (exists k :: 0 <= k < |t.users| && t.users[k].nationality == Some(pk))
      || (exists k :: 0 <= k < |t.costumers| && t.costumers[k].country == Some(pk))
      || (exists k :: 0 <= k < |t.costumers| && t.costumers[k].directorNationality == Some(pk))
      || (exists k :: 0 <= k < |t.costumers| && t.costumers[k].partnerNationality == Some(pk)))
  {
    if pk !in Ids(t.countries, CountryKey) then Err(NotFound)
    else if !RefersOpt(t.users, UserNationality, pk) && !RefersOpt(t.costumers, CostumerCountry, pk)
         && !RefersOpt(t.costumers, DirectorNationality, pk) && !RefersOpt(t.costumers, PartnerNationality, pk)
    then Ok(false)
    else Ok(true)
  }

  /** registered_country is not consulted: a country that costumers only use as
      their registered country is reported unused. */
  lemma CountryIsUsedIgnoresRegisteredCountry(t: Tables, pk: Pk, c: nat)
    requires pk in Ids(t.countries, CountryKey) && c < |t.costumers|
    requires t.costumers[c].registeredCountry == Some(pk)
    requires forall k :: 0 <= k < |t.users| ==> t.users[k].nationality != Some(pk)
    requires forall k :: 0 <= k < |t.costumers| ==>
      t.costumers[k].country != Some(pk) && t.costumers[k].directorNationality != Some(pk)
      && t.costumers[k].partnerNationality != Some(pk)
    ensures CountryIsUsed(t, pk) == Ok(false)
  {
    if CountryIsUsed(t, pk) == Ok(true) {
      assert false;
    }
  }

  /** CompanyIsUsed.get: used when some POS model belongs to it. */
  function CompanyIsUsed(t: Tables, pk: Pk): (r: Result<bool, Error>)
    ensures r.Err? <==> pk !in Ids(t.companies, CompanyKey)
    ensures r.Err? ==> r.error == NotFound
    ensures r.Ok? ==> (r.value <==> exists k :: 0 <= k < |t.posModels| && t.posModels[k].company == pk)
  {
    if pk !in Ids(t.companies, CompanyKey) then Err(NotFound)
    else Ok(Refers(t.posModels, ModelCompany, pk))
  }

  /** The "used" flag and the serializer's model_count tell the same story. */
  lemma CompanyIsUsedIffModelCount(t: Tables, pk: Pk)
    requires pk in Ids(t.companies, CompanyKey)
    ensures CompanyIsUsed(t, pk) == Ok(ModelCount(t.posModels, pk) != 0)
  {
  }

  /** PosModelIsUsed.get: used when some POS is of this model. */
  function PosModelIsUsed(t: Tables, pk: Pk): (r: Result<bool, Error>)
    ensures r.Err? <==> pk !in Ids(t.posModels, PosModelKey)
    ensures r.Err? ==> r.error == NotFound
    ensures r.Ok? ==> (r.value <==> exists k :: 0 <= k < |t.poses| && t.poses[k].model == pk)
  {
    if pk !in Ids(t.posModels, PosModelKey) then Err(NotFound)
    else Ok(Refers(t.poses, PosModelOf, pk))
  }

  /** POSIsUsed.get: used when some ContractPOS row holds it. */
  function PosIsUsed(t: Tables, pk: Pk): (r: Result<bool, Error>)
    ensures r.Err? <==> pk !in Ids(t.poses, PosKey)
    ensures r.Err? ==> r.error == NotFound
    ensures r.Ok? ==> (r.value <==> exists k :: 0 <= k < |t.contractPoses| && t.contractPoses[k].pos == pk)
  {
    if pk !in Ids(t.poses, PosKey) then Err(NotFound)
    else Ok(Refers(t.contractPoses, LinkedPos, pk))
  }

  /** A POS held by a contract running today is in use; the converse fails for
      POSes whose contracts have all ended. */
  lemma ActiveContractMeansUsed(t: Tables, pk: Pk, today: Date)
    requires pk in Ids(t.poses, PosKey)
    requires GetContractId(t.contractPoses, t.contracts, pk, today) != 0
    ensures PosIsUsed(t, pk) == Ok(true)
  {
  }

  /** ServiceIsUsed.get: used when some ContractService row holds it. */
  function ServiceIsUsed(t: Tables, pk: Pk): (r: Result<bool, Error>)
    ensures r.Err? <==> pk !in Ids(t.services, ServiceKey)
    ensures r.Err? ==> r.error == NotFound
    ensures r.Ok? ==> (r.value <==> exists k :: 0 <= k < |t.contractServices| && t.contractServices[k].service == pk)
  {
    if pk !in Ids(t.services, ServiceKey) then Err(NotFound)
    else Ok(Refers(t.contractServices, LinkedService, pk))
  }

  // ---------------------------------------------------------------------------
  // ActivePos, ServiceAvailability, CountryCoverage
  // ---------------------------------------------------------------------------

  /** ActivePos.post: flip is_active and save, which re-runs full_clean. */
  function ActivePosSpec(t: Tables, pk: Pk): (r: (Outcome<Error>, Tables))
    ensures pk !in Ids(t.poses, PosKey) ==> r == (Fail(NotFound), t)
    ensures r.0.Fail? ==> r.1 == t
    ensures Valid(t) ==> Valid(r.1)
  {
    match Find(t.poses, PosKey, pk)
    case None => (Fail(NotFound), t)
    case Some(i) =>
      SavePosValid(t, t.poses[i].(isActive := !t.poses[i].isActive));
      SavePosSpec(t, t.poses[i].(isActive := !t.poses[i].isActive))
  }

  /** On a consistent store the toggle touches exactly is_active of one POS, and
      fails, changing nothing, when that POS's serial no longer fits. */
  lemma ActivePosFlipsOne(t: Tables, pk: Pk, i: nat)
    requires Unique(Ids(t.poses, PosKey)) && i < |t.poses| && t.poses[i].id == pk
    ensures ActivePosSpec(t, pk) ==
      (PosClean(t, t.poses[i]),
       if PosClean(t, t.poses[i]).Pass? then t.(poses := t.poses[i := t.poses[i].(isActive := !t.poses[i].isActive)])
       else t)
  {
    FindUnique(t.poses, PosKey, i);
    UpsertAt(t.poses, PosKey, i, t.poses[i].(isActive := !t.poses[i].isActive));
  }

  /** Two successful calls restore the store. */
  lemma ActivePosInvolution(t: Tables, pk: Pk)
    requires Unique(Ids(t.poses, PosKey)) && ActivePosSpec(t, pk).0.Pass?
    ensures ActivePosSpec(ActivePosSpec(t, pk).1, pk) == (Pass, t)
  {
    var i := Find(t.poses, PosKey, pk).value;
    ActivePosFlipsOne(t, pk, i);
    var t1 := ActivePosSpec(t, pk).1;
    IdsUpdate(t.poses, PosKey, i, t1.poses[i]);
    PosCleanIgnoresFlags(t, t.poses[i], t1.poses[i]);
    ActivePosFlipsOne(t1, pk, i);
    assert t1.poses[i := t1.poses[i].(isActive := !t1.poses[i].isActive)] == t.poses;
  }

  method ActivePos(db: Db, pk: Pk) returns (r: Outcome<Error>)
    modifies db
    ensures (r, db.t) == ActivePosSpec(old(db.t), pk)
  {
    var i := Find(db.t.poses, PosKey, pk);
    if i.None? {
      return Fail(NotFound);
    }
    var pos := db.t.poses[i.value];
    pos := pos.(isActive := !pos.isActive);
    r := SavePos(db, pos);
  }

  /** ServiceAvailability.post: flip availability and save. */
  function ServiceAvailabilitySpec(t: Tables, pk: Pk): (r: (Outcome<Error>, Tables))
    ensures pk !in Ids(t.services, ServiceKey) <==> r == (Fail(NotFound), t)
    ensures r.0.Pass? || r.0 == Fail(NotFound)
  {
    match Find(t.services, ServiceKey, pk)
    case None => (Fail(NotFound), t)
    case Some(i) =>
      var s := t.services[i].(availability := !t.services[i].availability);
      (Pass, t.(services := Upsert(t.services, ServiceKey, s)))
  }

  lemma ServiceAvailabilityFlipsOne(t: Tables, pk: Pk, i: nat)
    requires Valid(t) && i < |t.services| && t.services[i].id == pk
    ensures ServiceAvailabilitySpec(t, pk) ==
      (Pass, t.(services := t.services[i := t.services[i].(availability := !t.services[i].availability)]))
    ensures Valid(ServiceAvailabilitySpec(t, pk).1)
  {
    FindUnique(t.services, ServiceKey, i);
    UpsertAt(t.services, ServiceKey, i, t.services[i].(availability := !t.services[i].availability));
    var t1 := ServiceAvailabilitySpec(t, pk).1;
    assert forall k :: 0 <= k < |t.contractServices| ==>
      t.contractServices[k].service in Ids(t1.services, ServiceKey);
  }

  lemma ServiceAvailabilityInvolution(t: Tables, pk: Pk)
    requires Valid(t) && pk in Ids(t.services, ServiceKey)
    ensures ServiceAvailabilitySpec(ServiceAvailabilitySpec(t, pk).1, pk) == (Pass, t)
  {
    var i := Find(t.services, ServiceKey, pk).value;
    ServiceAvailabilityFlipsOne(t, pk, i);
    var t1 := ServiceAvailabilitySpec(t, pk).1;
    ServiceAvailabilityFlipsOne(t1, pk, i);
    assert t1.services[i := t1.services[i].(availability := !t1.services[i].availability)] == t.services;
  }

  method ServiceAvailability(db: Db, pk: Pk) returns (r: Outcome<Error>)
    modifies db
    ensures (r, db.t) == ServiceAvailabilitySpec(old(db.t), pk)
  {
    var i := Find(db.t.services, ServiceKey, pk);
    if i.None? {
      return Fail(NotFound);
    }
    var service := db.t.services[i.value];
    service := service.(availability := !service.availability);
    db.t := db.t.(services := Upsert(db.t.services, ServiceKey, service));
    r := Pass;
  }

  /** CountryCoverage.post: flip is_covered and save through Country.save. */
  function CountryCoverageSpec(t: Tables, pk: Pk): (r: (Outcome<Error>, Tables))
    ensures pk !in Ids(t.countries, CountryKey) <==> r == (Fail(NotFound), t)
    ensures r.0.Pass? || r.0 == Fail(NotFound)
  {
    match Find(t.countries, CountryKey, pk)
    case None => (Fail(NotFound), t)
    case Some(i) =>
      var c := t.countries[i].(isCovered := !t.countries[i].isCovered);
      (Pass, t.(countries := Upsert(t.countries, CountryKey, CountrySaveForm(c))))
  }

  /** The abbreviation derivation leaves a stored country alone, so only
      is_covered of that one country changes. */
  lemma CountryCoverageFlipsOne(t: Tables, pk: Pk, i: nat)
    requires Valid(t) && i < |t.countries| && t.countries[i].id == pk
    ensures CountryCoverageSpec(t, pk) ==
      (Pass, t.(countries := t.countries[i := t.countries[i].(isCovered := !t.countries[i].isCovered)]))
    ensures Valid(CountryCoverageSpec(t, pk).1)
  {
    var c := t.countries[i].(isCovered := !t.countries[i].isCovered);
    assert CountrySaveForm(t.countries[i]) == t.countries[i];
    assert CountrySaveForm(c) == c;
    FindUnique(t.countries, CountryKey, i);
    UpsertAt(t.countries, CountryKey, i, c);
  }

  lemma CountryCoverageInvolution(t: Tables, pk: Pk)
    requires Valid(t) && pk in Ids(t.countries, CountryKey)
    ensures CountryCoverageSpec(CountryCoverageSpec(t, pk).1, pk) == (Pass, t)
  {
    var i := Find(t.countries, CountryKey, pk).value;
    CountryCoverageFlipsOne(t, pk, i);
    var t1 := CountryCoverageSpec(t, pk).1;
    CountryCoverageFlipsOne(t1, pk, i);
    assert t1.countries[i := t1.countries[i].(isCovered := !t1.countries[i].isCovered)] == t.countries;
  }

  method CountryCoverage(db: Db, pk: Pk) returns (r: Outcome<Error>)
    requires Valid(db.t)
    modifies db
    ensures (r, db.t) == CountryCoverageSpec(old(db.t), pk)
  {
    var i := Find(db.t.countries, CountryKey, pk);
    if i.None? {
      return Fail(NotFound);
    }
    var country := db.t.countries[i.value];
    country := country.(isCovered := !country.isCovered);
    SaveCountry(db, country);
    r := Pass;
  }

  // ---------------------------------------------------------------------------
  // TradingAddressCreate
  // ---------------------------------------------------------------------------

  /** The address table after creating one row per address, in order; each new
      row takes the next auto-increment key. */
  function AddAddresses(rows: seq<TradingAddress>, costumer: Pk, addresses: seq<string>): (r: seq<TradingAddress>)
    ensures |r| == |rows| + |addresses| && r[..|rows|] == rows
    ensures Unique(Ids(rows, TradingAddressKey)) ==> Unique(Ids(r, TradingAddressKey))
  {
    if addresses == [] then rows
    else
      var prev := AddAddresses(rows, costumer, addresses[..|addresses| - 1]);
      var row := TradingAddress(NextId(prev, TradingAddressKey), addresses[|addresses| - 1], costumer);
      AppendFreshWhenUnique(prev, TradingAddressKey, row);
      assert (prev + [row])[..|rows|] == prev[..|rows|];
      prev + [row]
  }

  /** Rows that carry the given addresses, in order, all owned by the costumer. */
  predicate AddressRowsFor(added: seq<TradingAddress>, costumer: Pk, addresses: seq<string>) {
    |added| == |addresses|
    && forall k :: 0 <= k < |added| ==> added[k].address == addresses[k] && added[k].costumer == costumer
  }

  /** One loop iteration: the next address becomes the next row. */
  lemma AddAddressesSnoc(rows: seq<TradingAddress>, costumer: Pk, addresses: seq<string>, i: nat)
    requires i < |addresses|
    ensures var prev := AddAddresses(rows, costumer, addresses[..i]);
      AddAddresses(rows, costumer, addresses[..i + 1])
      == prev + [TradingAddress(NextId(prev, TradingAddressKey), addresses[i], costumer)]
  {
    assert addresses[..i + 1][..i] == addresses[..i];
  }

  /** The rows AddAddresses adds are one per address, in order, of the costumer. */
  lemma {:induction false} AddAddressesRows(rows: seq<TradingAddress>, costumer: Pk, addresses: seq<string>)
    ensures AddressRowsFor(AddAddresses(rows, costumer, addresses)[|rows|..], costumer, addresses)
  {
    if addresses != [] {
      var front := addresses[..|addresses| - 1];
      AddAddressesRows(rows, costumer, front);
      var prev := AddAddresses(rows, costumer, front);
      var row := TradingAddress(NextId(prev, TradingAddressKey), addresses[|addresses| - 1], costumer);
      var added := (prev + [row])[|rows|..];
      assert added == prev[|rows|..] + [row];
      forall k | 0 <= k < |added|
        ensures added[k].address == addresses[k] && added[k].costumer == costumer
      {
        if k < |front| {
          assert added[k] == prev[|rows|..][k];
        }
      }
    }
  }

  /** TradingAddressCreate.post: 404 for an unknown costumer, else every
      address in the body becomes a row of that costumer. */
  function TradingAddressCreateSpec(t: Tables, pk: Pk, addresses: seq<string>): (r: (Outcome<Error>, Tables))
    ensures pk !in Ids(t.costumers, CostumerKey) <==> r == (Fail(NotFound), t)
    ensures r.0.Pass? ==> r.1 == t.(tradingAddresses := AddAddresses(t.tradingAddresses, pk, addresses))
  {
    if pk !in Ids(t.costumers, CostumerKey) then (Fail(NotFound), t)
    else (Pass, t.(tradingAddresses := AddAddresses(t.tradingAddresses, pk, addresses)))
  }

  lemma TradingAddressCreateValid(t: Tables, pk: Pk, addresses: seq<string>)
    requires Valid(t)
    ensures Valid(TradingAddressCreateSpec(t, pk, addresses).1)
  {
    if pk in Ids(t.costumers, CostumerKey) {
      var before := t.tradingAddresses;
      var rows := AddAddresses(before, pk, addresses);
      AddAddressesRows(before, pk, addresses);
      forall k | 0 <= k < |rows| ensures rows[k].costumer in Ids(t.costumers, CostumerKey) {
        if k < |before| {
          assert rows[k] == rows[..|before|][k] == before[k];
        } else {
          assert rows[k] == rows[|before|..][k - |before|];
        }
      }
    }
  }

  method TradingAddressCreate(db: Db, pk: Pk, addresses: seq<string>) returns (r: Outcome<Error>)
    modifies db
    ensures (r, db.t) == TradingAddressCreateSpec(old(db.t), pk, addresses)
  {
    if Find(db.t.costumers, CostumerKey, pk).None? {
      return Fail(NotFound);
    }
    ghost var t0 := db.t;
    var i := 0;
    while i < |addresses|
      invariant 0 <= i <= |addresses|
      invariant db.t == t0.(tradingAddresses := AddAddresses(t0.tradingAddresses, pk, addresses[..i]))
    {
      var address := TradingAddress(NextId(db.t.tradingAddresses, TradingAddressKey), addresses[i], pk);
      db.t := db.t.(tradingAddresses := db.t.tradingAddresses + [address]);
      AddAddressesSnoc(t0.tradingAddresses, pk, addresses, i);
      i := i + 1;
    }
    assert addresses[..i] == addresses;
    r := Pass;
  }

  // ---------------------------------------------------------------------------
  // ContractSolutions
  // ---------------------------------------------------------------------------

  datatype ServiceItem = ServiceItem(id: Pk, price: real, cost: real)
  datatype PosItem = PosItem(id: Pk, price: real, hardwareCost: real, softwareCost: real)

  /** The ContractService row the loop creates for one item. */
  function ServiceRow(id: Pk, contract: Pk, item: ServiceItem, actor: Pk): ContractService {
    ContractService(id, contract, item.id, item.price, item.cost, Some(actor))
  }

  /** The ContractPOS row the loop creates for one item. */
  function PosRow(id: Pk, contract: Pk, item: PosItem, actor: Pk): ContractPOS {
    ContractPOS(id, contract, item.id, item.price, item.hardwareCost, item.softwareCost, Some(actor))
  }

  /** rows are the ContractService rows created for items, one each, in order. */
  predicate ServiceRowsFor(rows: seq<ContractService>, contract: Pk, items: seq<ServiceItem>, actor: Pk) {
    |rows| == |items| && forall k :: 0 <= k < |rows| ==> rows[k] == ServiceRow(rows[k].id, contract, items[k], actor)
  }

  /** rows are the ContractPOS rows created for items, one each, in order. */
  predicate PosRowsFor(rows: seq<ContractPOS>, contract: Pk, items: seq<PosItem>, actor: Pk) {
    |rows| == |items| && forall k :: 0 <= k < |rows| ==> rows[k] == PosRow(rows[k].id, contract, items[k], actor)
  }

  lemma ServiceRowsSnoc(rows: seq<ContractService>, row: ContractService, contract: Pk, items: seq<ServiceItem>, actor: Pk)
    requires |items| > 0 && ServiceRowsFor(rows, contract, items[..|items| - 1], actor)
    requires row == ServiceRow(row.id, contract, items[|items| - 1], actor)
    ensures ServiceRowsFor(rows + [row], contract, items, actor)
  {
    forall k | 0 <= k < |rows| ensures (rows + [row])[k] == ServiceRow(rows[k].id, contract, items[k], actor) {
      assert items[..|items| - 1][k] == items[k];
    }
  }

  lemma PosRowsSnoc(rows: seq<ContractPOS>, row: ContractPOS, contract: Pk, items: seq<PosItem>, actor: Pk)
    requires |items| > 0 && PosRowsFor(rows, contract, items[..|items| - 1], actor)
    requires row == PosRow(row.id, contract, items[|items| - 1], actor)
    ensures PosRowsFor(rows + [row], contract, items, actor)
  {
    forall k | 0 <= k < |rows| ensures (rows + [row])[k] == PosRow(rows[k].id, contract, items[k], actor) {
      assert items[..|items| - 1][k] == items[k];
    }
  }

  /** The services loop over the ContractService table `rows`, with `known` the
      VirtualService table: one row per item until an unknown service aborts
      with 404; the rows created before it stay. */
  function AddServices(rows: seq<ContractService>, known: seq<VirtualService>, contract: Pk,
                       items: seq<ServiceItem>, actor: Pk): (r: (Outcome<Error>, seq<ContractService>))
    ensures |rows| <= |r.1| <= |rows| + |items|
    ensures r.1[..|rows|] == rows
    ensures r.0.Pass? || r.0 == Fail(NotFound)
  {
    if items == [] then (Pass, rows)
    else
      var last := items[|items| - 1];
      var (o, prev) := AddServices(rows, known, contract, items[..|items| - 1], actor);
      if o.Fail? then (o, prev)
      else if last.id !in Ids(known, ServiceKey) then (Fail(NotFound), prev)
      else
        var row := ServiceRow(NextId(prev, ContractServiceKey), contract, last, actor);
        assert (prev + [row])[..|rows|] == prev[..|rows|];
        (Pass, prev + [row])
  }

  /** The rows AddServices adds take fresh primary keys. */
  lemma {:induction false} AddServicesUnique(rows: seq<ContractService>, known: seq<VirtualService>, contract: Pk,
                                         items: seq<ServiceItem>, actor: Pk)
    requires Unique(Ids(rows, ContractServiceKey))
    ensures Unique(Ids(AddServices(rows, known, contract, items, actor).1, ContractServiceKey))
  {
    if items != [] {
      var front := items[..|items| - 1];
      var last := items[|items| - 1];
      AddServicesUnique(rows, known, contract, front, actor);
      var (o, prev) := AddServices(rows, known, contract, front, actor);
      if o.Pass? && last.id in Ids(known, ServiceKey) {
        AppendFresh(prev, ContractServiceKey, ServiceRow(NextId(prev, ContractServiceKey), contract, last, actor));
      }
    }
  }

  /** A pass adds exactly one row per item. */
  lemma {:induction false} AddServicesLength(rows: seq<ContractService>, known: seq<VirtualService>, contract: Pk,
                                         items: seq<ServiceItem>, actor: Pk)
    ensures var r := AddServices(rows, known, contract, items, actor);
      r.0.Pass? ==> |r.1| == |rows| + |items|
  {
    if items != [] {
      AddServicesLength(rows, known, contract, items[..|items| - 1], actor);
    }
  }

  /** Which items AddServices gets through: with n the number of rows added, the
      first n items exist; it passes exactly when n covers all the items, and
      otherwise item n is the one that does not exist. */
  lemma {:induction false} AddServicesOutcome(rows: seq<ContractService>, known: seq<VirtualService>, contract: Pk,
                                          items: seq<ServiceItem>, actor: Pk)
    ensures var r := AddServices(rows, known, contract, items, actor);
      forall k :: 0 <= k < |r.1| - |rows| ==> items[k].id in Ids(known, ServiceKey)
    ensures var r := AddServices(rows, known, contract, items, actor);
      r.0.Pass? <==> |r.1| == |rows| + |items|
    ensures var r := AddServices(rows, known, contract, items, actor);
      r.0.Fail? ==> items[|r.1| - |rows|].id !in Ids(known, ServiceKey)
  {
    AddServicesKnown(rows, known, contract, items, actor);
    AddServicesStop(rows, known, contract, items, actor);
    AddServicesLength(rows, known, contract, items, actor);
  }

  lemma {:induction false} AddServicesKnown(rows: seq<ContractService>, known: seq<VirtualService>, contract: Pk,
                                        items: seq<ServiceItem>, actor: Pk)
    ensures var r := AddServices(rows, known, contract, items, actor);
      forall k :: 0 <= k < |r.1| - |rows| ==> items[k].id in Ids(known, ServiceKey)
  {
    if items != [] {
      var front := items[..|items| - 1];
      AddServicesKnown(rows, known, contract, front, actor);
      var p := AddServices(rows, known, contract, front, actor);
      var r := AddServices(rows, known, contract, items, actor);
      assert forall k :: 0 <= k < |p.1| - |rows| ==> items[k] == front[k];
      if p.0.Pass? && items[|items| - 1].id in Ids(known, ServiceKey) {
        AddServicesLength(rows, known, contract, front, actor);
        assert |r.1| == |p.1| + 1;
      } else {
        assert r.1 == p.1;
      }
    }
  }

  lemma {:induction false} AddServicesStop(rows: seq<ContractService>, known: seq<VirtualService>, contract: Pk,
                                       items: seq<ServiceItem>, actor: Pk)
    ensures var r := AddServices(rows, known, contract, items, actor);
      r.0.Fail? ==> |r.1| - |rows| < |items| && items[|r.1| - |rows|].id !in Ids(known, ServiceKey)
  {
    if items != [] {
      var front := items[..|items| - 1];
      AddServicesStop(rows, known, contract, front, actor);
      var p := AddServices(rows, known, contract, front, actor);
      var r := AddServices(rows, known, contract, items, actor);
      if p.0.Fail? {
        assert r == p;
        assert items[|p.1| - |rows|] == front[|p.1| - |rows|];
      } else if items[|items| - 1].id !in Ids(known, ServiceKey) {
        AddServicesLength(rows, known, contract, front, actor);
        assert r.1 == p.1;
      }
    }
  }

  /** The rows of all but the last item, plus the last item's row, are the
      rows of all the items. */
  lemma ServiceRowsExtend(rows: seq<ContractService>, prev: seq<ContractService>, row: ContractService, contract: Pk, items: seq<ServiceItem>, actor: Pk)
    requires |items| > 0 && |prev| == |rows| + |items| - 1
    requires ServiceRowsFor(prev[|rows|..], contract, items[..|items| - 1][..|prev| - |rows|], actor)
    requires row == ServiceRow(row.id, contract, items[|items| - 1], actor)
    ensures ServiceRowsFor((prev + [row])[|rows|..], contract, items[..|prev| + 1 - |rows|], actor)
  {
    var front := items[..|items| - 1];
    assert front[..|prev| - |rows|] == front;
    assert (prev + [row])[|rows|..] == prev[|rows|..] + [row];
    ServiceRowsSnoc(prev[|rows|..], row, contract, items, actor);
    assert items[..|prev| + 1 - |rows|] == items;
  }

  /** The rows AddServices adds are one per item got through, in order. */
  lemma {:induction false} AddServicesRows(rows: seq<ContractService>, known: seq<VirtualService>, contract: Pk,
                                       items: seq<ServiceItem>, actor: Pk)
    ensures var r := AddServices(rows, known, contract, items, actor);
      ServiceRowsFor(r.1[|rows|..], contract, items[..|r.1| - |rows|], actor)
  {
    if items != [] {
      var front := items[..|items| - 1];
      var last := items[|items| - 1];
      var p := AddServices(rows, known, contract, front, actor);
      var prev := p.1;
      var r := AddServices(rows, known, contract, items, actor);
      if p.0.Pass? && last.id in Ids(known, ServiceKey) {
        var row := ServiceRow(NextId(prev, ContractServiceKey), contract, last, actor);
        assert ServiceRowsFor(r.1[|rows|..], contract, items[..|r.1| - |rows|], actor) by {
          AddServicesRows(rows, known, contract, front, actor);
          AddServicesLength(rows, known, contract, front, actor);
          assert r.1 == prev + [row];
          ServiceRowsExtend(rows, prev, row, contract, items, actor);
        }
      } else {
        assert ServiceRowsFor(r.1[|rows|..], contract, items[..|r.1| - |rows|], actor) by {
          AddServicesRows(rows, known, contract, front, actor);
          assert r.1 == prev;
          assert front[..|prev| - |rows|] == items[..|prev| - |rows|];
        }
      }
    }
  }

  /** The POS loop, with the same abort rule; `known` is the POS table. */
  function AddPoses(rows: seq<ContractPOS>, known: seq<POS>, contract: Pk,
                       items: seq<PosItem>, actor: Pk): (r: (Outcome<Error>, seq<ContractPOS>))
    ensures |rows| <= |r.1| <= |rows| + |items|
    ensures r.1[..|rows|] == rows
    ensures r.0.Pass? || r.0 == Fail(NotFound)
  {
    if items == [] then (Pass, rows)
    else
      var last := items[|items| - 1];
      var (o, prev) := AddPoses(rows, known, contract, items[..|items| - 1], actor);
      if o.Fail? then (o, prev)
      else if last.id !in Ids(known, PosKey) then (Fail(NotFound), prev)
      else
        var row := PosRow(NextId(prev, ContractPosKey), contract, last, actor);
        assert (prev + [row])[..|rows|] == prev[..|rows|];
        (Pass, prev + [row])
  }

  /** The rows AddPoses adds take fresh primary keys. */
  lemma {:induction false} AddPosesUnique(rows: seq<ContractPOS>, known: seq<POS>, contract: Pk,
                                         items: seq<PosItem>, actor: Pk)
    requires Unique(Ids(rows, ContractPosKey))
    ensures Unique(Ids(AddPoses(rows, known, contract, items, actor).1, ContractPosKey))
  {
    if items != [] {
      var front := items[..|items| - 1];
      var last := items[|items| - 1];
      AddPosesUnique(rows, known, contract, front, actor);
      var (o, prev) := AddPoses(rows, known, contract, front, actor);
      if o.Pass? && last.id in Ids(known, PosKey) {
        AppendFresh(prev, ContractPosKey, PosRow(NextId(prev, ContractPosKey), contract, last, actor));
      }
    }
  }

  /** A pass adds exactly one row per item. */
  lemma {:induction false} AddPosesLength(rows: seq<ContractPOS>, known: seq<POS>, contract: Pk,
                                         items: seq<PosItem>, actor: Pk)
    ensures var r := AddPoses(rows, known, contract, items, actor);
      r.0.Pass? ==> |r.1| == |rows| + |items|
  {
    if items != [] {
      AddPosesLength(rows, known, contract, items[..|items| - 1], actor);
    }
  }

  /** Which items AddPoses gets through: with n the number of rows added, the
      first n items exist; it passes exactly when n covers all the items, and
      otherwise item n is the one that does not exist. */
  lemma {:induction false} AddPosesOutcome(rows: seq<ContractPOS>, known: seq<POS>, contract: Pk,
                                          items: seq<PosItem>, actor: Pk)
    ensures var r := AddPoses(rows, known, contract, items, actor);
      forall k :: 0 <= k < |r.1| - |rows| ==> items[k].id in Ids(known, PosKey)
    ensures var r := AddPoses(rows, known, contract, items, actor);
      r.0.Pass? <==> |r.1| == |rows| + |items|
    ensures var r := AddPoses(rows, known, contract, items, actor);
      r.0.Fail? ==> items[|r.1| - |rows|].id !in Ids(known, PosKey)
  {
    AddPosesKnown(rows, known, contract, items, actor);
    AddPosesStop(rows, known, contract, items, actor);
    AddPosesLength(rows, known, contract, items, actor);
  }

  lemma {:induction false} AddPosesKnown(rows: seq<ContractPOS>, known: seq<POS>, contract: Pk,
                                        items: seq<PosItem>, actor: Pk)
    ensures var r := AddPoses(rows, known, contract, items, actor);
      forall k :: 0 <= k < |r.1| - |rows| ==> items[k].id in Ids(known, PosKey)
  {
    if items != [] {
      var front := items[..|items| - 1];
      AddPosesKnown(rows, known, contract, front, actor);
      var p := AddPoses(rows, known, contract, front, actor);
      var r := AddPoses(rows, known, contract, items, actor);
      assert forall k :: 0 <= k < |p.1| - |rows| ==> items[k] == front[k];
      if p.0.Pass? && items[|items| - 1].id in Ids(known, PosKey) {
        AddPosesLength(rows, known, contract, front, actor);
        assert |r.1| == |p.1| + 1;
      } else {
        assert r.1 == p.1;
      }
    }
  }

  lemma {:induction false} AddPosesStop(rows: seq<ContractPOS>, known: seq<POS>, contract: Pk,
                                       items: seq<PosItem>, actor: Pk)
    ensures var r := AddPoses(rows, known, contract, items, actor);
      r.0.Fail? ==> |r.1| - |rows| < |items| && items[|r.1| - |rows|].id !in Ids(known, PosKey)
  {
    if items != [] {
      var front := items[..|items| - 1];
      AddPosesStop(rows, known, contract, front, actor);
      var p := AddPoses(rows, known, contract, front, actor);
      var r := AddPoses(rows, known, contract, items, actor);
      if p.0.Fail? {
        assert r == p;
        assert items[|p.1| - |rows|] == front[|p.1| - |rows|];
      } else if items[|items| - 1].id !in Ids(known, PosKey) {
        AddPosesLength(rows, known, contract, front, actor);
        assert r.1 == p.1;
      }
    }
  }

  /** The rows of all but the last item, plus the last item's row, are the
      rows of all the items. */
  lemma PosRowsExtend(rows: seq<ContractPOS>, prev: seq<ContractPOS>, row: ContractPOS, contract: Pk, items: seq<PosItem>, actor: Pk)
    requires |items| > 0 && |prev| == |rows| + |items| - 1
    requires PosRowsFor(prev[|rows|..], contract, items[..|items| - 1][..|prev| - |rows|], actor)
    requires row == PosRow(row.id, contract, items[|items| - 1], actor)
    ensures PosRowsFor((prev + [row])[|rows|..], contract, items[..|prev| + 1 - |rows|], actor)
  {
    var front := items[..|items| - 1];
    assert front[..|prev| - |rows|] == front;
    assert (prev + [row])[|rows|..] == prev[|rows|..] + [row];
    PosRowsSnoc(prev[|rows|..], row, contract, items, actor);
    assert items[..|prev| + 1 - |rows|] == items;
  }

  /** The rows AddPoses adds are one per item got through, in order. */
  lemma {:induction false} AddPosesRows(rows: seq<ContractPOS>, known: seq<POS>, contract: Pk,
                                       items: seq<PosItem>, actor: Pk)
    ensures var r := AddPoses(rows, known, contract, items, actor);
      PosRowsFor(r.1[|rows|..], contract, items[..|r.1| - |rows|], actor)
  {
    if items != [] {
      var front := items[..|items| - 1];
      var last := items[|items| - 1];
      var p := AddPoses(rows, known, contract, front, actor);
      var prev := p.1;
      var r := AddPoses(rows, known, contract, items, actor);
      if p.0.Pass? && last.id in Ids(known, PosKey) {
        var row := PosRow(NextId(prev, ContractPosKey), contract, last, actor);
        assert PosRowsFor(r.1[|rows|..], contract, items[..|r.1| - |rows|], actor) by {
          AddPosesRows(rows, known, contract, front, actor);
          AddPosesLength(rows, known, contract, front, actor);
          assert r.1 == prev + [row];
          PosRowsExtend(rows, prev, row, contract, items, actor);
        }
      } else {
        assert PosRowsFor(r.1[|rows|..], contract, items[..|r.1| - |rows|], actor) by {
          AddPosesRows(rows, known, contract, front, actor);
          assert r.1 == prev;
          assert front[..|prev| - |rows|] == items[..|prev| - |rows|];
        }
      }
    }
  }

  /** One more service item: its row follows the earlier ones, or the batch
      stops with 404 if the service does not exist. */
  lemma AddServicesSnoc(rows: seq<ContractService>, known: seq<VirtualService>, contract: Pk,
                        items: seq<ServiceItem>, item: ServiceItem, actor: Pk)
    requires AddServices(rows, known, contract, items, actor).0.Pass?
    ensures var prev := AddServices(rows, known, contract, items, actor).1;
      AddServices(rows, known, contract, items + [item], actor)
      == if item.id !in Ids(known, ServiceKey) then (Fail(NotFound), prev)
         else (Pass, prev + [ServiceRow(NextId(prev, ContractServiceKey), contract, item, actor)])
  {
    assert (items + [item])[..|items|] == items;
  }

  /** Once an item is missing, the items after it are never looked at. */
  lemma {:induction false} AddServicesStopped(rows: seq<ContractService>, known: seq<VirtualService>, contract: Pk,
                                              items: seq<ServiceItem>, m: nat, actor: Pk)
    requires m <= |items| && AddServices(rows, known, contract, items[..m], actor).0.Fail?
    ensures AddServices(rows, known, contract, items, actor) == AddServices(rows, known, contract, items[..m], actor)
  {
    if m == |items| {
      assert items[..m] == items;
    } else {
      assert items[..|items| - 1][..m] == items[..m];
      AddServicesStopped(rows, known, contract, items[..|items| - 1], m, actor);
    }
  }

  lemma AddPosesSnoc(rows: seq<ContractPOS>, known: seq<POS>, contract: Pk,
                     items: seq<PosItem>, item: PosItem, actor: Pk)
    requires AddPoses(rows, known, contract, items, actor).0.Pass?
    ensures var prev := AddPoses(rows, known, contract, items, actor).1;
      AddPoses(rows, known, contract, items + [item], actor)
      == if item.id !in Ids(known, PosKey) then (Fail(NotFound), prev)
         else (Pass, prev + [PosRow(NextId(prev, ContractPosKey), contract, item, actor)])
  {
    assert (items + [item])[..|items|] == items;
  }

  lemma {:induction false} AddPosesStopped(rows: seq<ContractPOS>, known: seq<POS>, contract: Pk,
                                           items: seq<PosItem>, m: nat, actor: Pk)
    requires m <= |items| && AddPoses(rows, known, contract, items[..m], actor).0.Fail?
    ensures AddPoses(rows, known, contract, items, actor) == AddPoses(rows, known, contract, items[..m], actor)
  {
    if m == |items| {
      assert items[..m] == items;
    } else {
      assert items[..|items| - 1][..m] == items[..m];
      AddPosesStopped(rows, known, contract, items[..|items| - 1], m, actor);
    }
  }

  /** ContractSolutions.post: 404 for an unknown contract; otherwise the
      services, then the POSes, with no transaction around the two loops. */
  function ContractSolutionsSpec(t: Tables, pk: Pk, services: seq<ServiceItem>, poses: seq<PosItem>, actor: Pk): (r: (Outcome<Error>, Tables))
    ensures pk !in Ids(t.contracts, ContractKey) ==> r == (Fail(NotFound), t)
    ensures r.0.Pass? || r.0 == Fail(NotFound)
    ensures r.1 == t.(contractServices := r.1.contractServices, contractPoses := r.1.contractPoses)
  {
    if pk !in Ids(t.contracts, ContractKey) then (Fail(NotFound), t)
    else
      var (o, added) := AddServices(t.contractServices, t.services, pk, services, actor);
      if o.Fail? then (o, t.(contractServices := added))
      else
        var (o2, linked) := AddPoses(t.contractPoses, t.poses, pk, poses, actor);
        (o2, t.(contractServices := added, contractPoses := linked))
  }

  /** The services loop passes exactly when every service exists, and then adds
      one row per item, in order. */
  lemma AddServicesEffect(rows: seq<ContractService>, known: seq<VirtualService>, contract: Pk,
                          items: seq<ServiceItem>, actor: Pk)
    ensures var r := AddServices(rows, known, contract, items, actor);
      r.0.Pass? <==> forall k :: 0 <= k < |items| ==> items[k].id in Ids(known, ServiceKey)
    ensures var r := AddServices(rows, known, contract, items, actor);
      r.0.Pass? ==> ServiceRowsFor(r.1[|rows|..], contract, items, actor)
  {
    AddServicesRows(rows, known, contract, items, actor);
    AddServicesOutcome(rows, known, contract, items, actor);
    var (o, added) := AddServices(rows, known, contract, items, actor);
    if o.Fail? {
      assert items[|added| - |rows|].id !in Ids(known, ServiceKey);
    } else {
      assert items[..|items|] == items;
    }
  }

  /** The POS loop passes exactly when every POS exists, and then adds one row
      per item, in order. */
  lemma AddPosesEffect(rows: seq<ContractPOS>, known: seq<POS>, contract: Pk,
                       items: seq<PosItem>, actor: Pk)
    ensures var r := AddPoses(rows, known, contract, items, actor);
      r.0.Pass? <==> forall k :: 0 <= k < |items| ==> items[k].id in Ids(known, PosKey)
    ensures var r := AddPoses(rows, known, contract, items, actor);
      r.0.Pass? ==> PosRowsFor(r.1[|rows|..], contract, items, actor)
  {
    AddPosesRows(rows, known, contract, items, actor);
    AddPosesOutcome(rows, known, contract, items, actor);
    var (o, linked) := AddPoses(rows, known, contract, items, actor);
    if o.Fail? {
      assert items[|linked| - |rows|].id !in Ids(known, PosKey);
    } else {
      assert items[..|items|] == items;
    }
  }

  /** The batch succeeds exactly when every service and POS exists, and then
      adds one row per item, in order, carrying the item's own amounts. */
  lemma ContractSolutionsEffect(t: Tables, pk: Pk, services: seq<ServiceItem>, poses: seq<PosItem>, actor: Pk)
    ensures var r := ContractSolutionsSpec(t, pk, services, poses, actor);
      r.0.Pass? <==> (pk in Ids(t.contracts, ContractKey)
        && (forall k :: 0 <= k < |services| ==> services[k].id in Ids(t.services, ServiceKey))
        && (forall k :: 0 <= k < |poses| ==> poses[k].id in Ids(t.poses, PosKey)))
    ensures var r := ContractSolutionsSpec(t, pk, services, poses, actor);
      r.0.Pass? ==> (r.1.contractServices[..|t.contractServices|] == t.contractServices
        && ServiceRowsFor(r.1.contractServices[|t.contractServices|..], pk, services, actor)
        && r.1.contractPoses[..|t.contractPoses|] == t.contractPoses
        && PosRowsFor(r.1.contractPoses[|t.contractPoses|..], pk, poses, actor))
  {
    if pk in Ids(t.contracts, ContractKey) {
      AddServicesEffect(t.contractServices, t.services, pk, services, actor);
      AddPosesEffect(t.contractPoses, t.poses, pk, poses, actor);
    }
  }

  /** A POS that does not exist, listed after the services, still leaves all the
      service rows in the store. */
  lemma ContractSolutionsPartialBatch(t: Tables, pk: Pk, services: seq<ServiceItem>, poses: seq<PosItem>, actor: Pk)
    requires pk in Ids(t.contracts, ContractKey)
    requires forall k :: 0 <= k < |services| ==> services[k].id in Ids(t.services, ServiceKey)
    requires |poses| > 0 && poses[0].id !in Ids(t.poses, PosKey)
    ensures var r := ContractSolutionsSpec(t, pk, services, poses, actor);
      && r.0 == Fail(NotFound) && r.1.contractPoses == t.contractPoses
      && r.1.contractServices[..|t.contractServices|] == t.contractServices
      && ServiceRowsFor(r.1.contractServices[|t.contractServices|..], pk, services, actor)
  {
    AddServicesRows(t.contractServices, t.services, pk, services, actor);
    AddServicesOutcome(t.contractServices, t.services, pk, services, actor);
    var (o, added) := AddServices(t.contractServices, t.services, pk, services, actor);
    assert services[..|services|] == services;
    AddPosesRows(t.contractPoses, t.poses, pk, poses, actor);
    AddPosesOutcome(t.contractPoses, t.poses, pk, poses, actor);
    var (o2, linked) := AddPoses(t.contractPoses, t.poses, pk, poses, actor);
    assert |linked| == |t.contractPoses|;
    assert linked == linked[..|t.contractPoses|];
  }

  /** Every row AddServices adds points at the contract and at a service that exists. */
  lemma AddServicesRefer(rows: seq<ContractService>, known: seq<VirtualService>, contract: Pk,
                         items: seq<ServiceItem>, actor: Pk)
    ensures var r := AddServices(rows, known, contract, items, actor).1;
      forall k :: |rows| <= k < |r| ==> r[k].contract == contract && r[k].service in Ids(known, ServiceKey)
  {
    AddServicesRows(rows, known, contract, items, actor);
    AddServicesOutcome(rows, known, contract, items, actor);
    var r := AddServices(rows, known, contract, items, actor).1;
    forall k | |rows| <= k < |r| ensures r[k].contract == contract && r[k].service in Ids(known, ServiceKey) {
      var j := k - |rows|;
      assert r[k] == r[|rows|..][j];
      assert items[..|r| - |rows|][j] == items[j];
    }
  }

  /** Every row AddPoses adds points at the contract and at a POS that exists. */
  lemma AddPosesRefer(rows: seq<ContractPOS>, known: seq<POS>, contract: Pk,
                      items: seq<PosItem>, actor: Pk)
    ensures var r := AddPoses(rows, known, contract, items, actor).1;
      forall k :: |rows| <= k < |r| ==> r[k].contract == contract && r[k].pos in Ids(known, PosKey)
  {
    AddPosesRows(rows, known, contract, items, actor);
    AddPosesOutcome(rows, known, contract, items, actor);
    var r := AddPoses(rows, known, contract, items, actor).1;
    forall k | |rows| <= k < |r| ensures r[k].contract == contract && r[k].pos in Ids(known, PosKey) {
      var j := k - |rows|;
      assert r[k] == r[|rows|..][j];
      assert items[..|r| - |rows|][j] == items[j];
    }
  }

  /** The ContractService rows point at existing contracts and services. */
  predicate ServiceLinksValid(t: Tables, links: seq<ContractService>) {
    && Unique(Ids(links, ContractServiceKey))
    && forall k :: 0 <= k < |links| ==>
         links[k].contract in Ids(t.contracts, ContractKey) && links[k].service in Ids(t.services, ServiceKey)
  }

  /** The ContractPOS rows point at existing contracts and POSes. */
  predicate PosLinksValid(t: Tables, links: seq<ContractPOS>) {
    && Unique(Ids(links, ContractPosKey))
    && forall k :: 0 <= k < |links| ==>
         links[k].contract in Ids(t.contracts, ContractKey) && links[k].pos in Ids(t.poses, PosKey)
  }

  lemma ReplaceLinks(t: Tables, services: seq<ContractService>, poses: seq<ContractPOS>)
    requires Valid(t) && ServiceLinksValid(t, services) && PosLinksValid(t, poses)
    ensures Valid(t.(contractServices := services, contractPoses := poses))
  {
  }

  lemma ServiceLinksAfter(t: Tables, pk: Pk, services: seq<ServiceItem>, actor: Pk)
    requires Valid(t) && pk in Ids(t.contracts, ContractKey)
    ensures ServiceLinksValid(t, AddServices(t.contractServices, t.services, pk, services, actor).1)
  {
    var before := t.contractServices;
    AddServicesUnique(before, t.services, pk, services, actor);
    var added := AddServices(before, t.services, pk, services, actor).1;
    AddServicesRefer(before, t.services, pk, services, actor);
    forall k | 0 <= k < |before| ensures added[k] == before[k] {
      assert added[k] == added[..|before|][k];
    }
  }

  lemma PosLinksAfter(t: Tables, pk: Pk, poses: seq<PosItem>, actor: Pk)
    requires Valid(t) && pk in Ids(t.contracts, ContractKey)
    ensures PosLinksValid(t, AddPoses(t.contractPoses, t.poses, pk, poses, actor).1)
  {
    var before := t.contractPoses;
    AddPosesUnique(before, t.poses, pk, poses, actor);
    var linked := AddPoses(before, t.poses, pk, poses, actor).1;
    AddPosesRefer(before, t.poses, pk, poses, actor);
    forall k | 0 <= k < |before| ensures linked[k] == before[k] {
      assert linked[k] == linked[..|before|][k];
    }
  }

  /** The store stays consistent: the new rows point at the contract and at
      services and POSes that exist, under fresh primary keys. */
  lemma ContractSolutionsValid(t: Tables, pk: Pk, services: seq<ServiceItem>, poses: seq<PosItem>, actor: Pk)
    requires Valid(t)
    ensures Valid(ContractSolutionsSpec(t, pk, services, poses, actor).1)
  {
    if pk in Ids(t.contracts, ContractKey) {
      ServiceLinksAfter(t, pk, services, actor);
      PosLinksAfter(t, pk, poses, actor);
      var (o, added) := AddServices(t.contractServices, t.services, pk, services, actor);
      if o.Fail? {
        ReplaceLinks(t, added, t.contractPoses);
      } else {
        ReplaceLinks(t, added, AddPoses(t.contractPoses, t.poses, pk, poses, actor).1);
      }
    }
  }

  method ContractSolutions(db: Db, pk: Pk, services: seq<ServiceItem>, poses: seq<PosItem>, actor: Pk)
    returns (r: Outcome<Error>)
    modifies db
    ensures (r, db.t) == ContractSolutionsSpec(old(db.t), pk, services, poses, actor)
  {
    ghost var t0 := db.t;
    if Find(db.t.contracts, ContractKey, pk).None? {
      return Fail(NotFound);
    }
    var i := 0;
    while i < |services|
      invariant 0 <= i <= |services|
      invariant db.t == t0.(contractServices := db.t.contractServices)
      invariant AddServices(t0.contractServices, t0.services, pk, services[..i], actor) == (Pass, db.t.contractServices)
    {
      var item := services[i];
      assert services[..i + 1] == services[..i] + [item];
      AddServicesSnoc(t0.contractServices, t0.services, pk, services[..i], item, actor);
      if Find(db.t.services, ServiceKey, item.id).None? {
        AddServicesStopped(t0.contractServices, t0.services, pk, services, i + 1, actor);
        return Fail(NotFound);
      }
      var row := ServiceRow(NextId(db.t.contractServices, ContractServiceKey), pk, item, actor);
      db.t := db.t.(contractServices := db.t.contractServices + [row]);
      i := i + 1;
    }
    assert services[..i] == services;
    var j := 0;
    while j < |poses|
      invariant 0 <= j <= |poses|
      invariant db.t == t0.(contractServices := db.t.contractServices, contractPoses := db.t.contractPoses)
      invariant AddServices(t0.contractServices, t0.services, pk, services, actor) == (Pass, db.t.contractServices)
      invariant AddPoses(t0.contractPoses, t0.poses, pk, poses[..j], actor) == (Pass, db.t.contractPoses)
    {
      var item := poses[j];
      assert poses[..j + 1] == poses[..j] + [item];
      AddPosesSnoc(t0.contractPoses, t0.poses, pk, poses[..j], item, actor);
      if Find(db.t.poses, PosKey, item.id).None? {
        AddPosesStopped(t0.contractPoses, t0.poses, pk, poses, j + 1, actor);
        return Fail(NotFound);
      }
      var row := PosRow(NextId(db.t.contractPoses, ContractPosKey), pk, item, actor);
      db.t := db.t.(contractPoses := db.t.contractPoses + [row]);
      j := j + 1;
    }
    assert poses[..j] == poses;
    r := Pass;
  }

  // ---------------------------------------------------------------------------
  // CostumerViewSet.perform_create / perform_update
  // ---------------------------------------------------------------------------

  /** perform_create: created_by and last_updated_by are both the actor. */
  function CostumerCreateSpec(t: Tables, c: Costumer, actor: Pk): (r: (Outcome<Error>, Tables))
    ensures r.0 == CostumerFullClean(c)
    ensures r.0.Pass? ==> exists id :: id !in Ids(t.costumers, CostumerKey) && r.1 == t.(costumers := t.costumers +
      [CostumerSaveForm(c.(id := id, createdBy := Some(actor), lastUpdatedBy := Some(actor)))])
    ensures r.0.Fail? ==> r.1 == t
  {
    var id := NextId(t.costumers, CostumerKey);
    var row := c.(id := id, createdBy := Some(actor), lastUpdatedBy := Some(actor));
    assert CostumerFullClean(row) == CostumerFullClean(c);
    assert Find(t.costumers, CostumerKey, id).None?;
    SaveCostumerSpec(t, row)
  }

  /** perform_update: the keyword last_update_by names no field, so the saved
      row keeps its earlier last_updated_by whoever the actor is. */
  function CostumerUpdateSpec(t: Tables, pk: Pk, c: Costumer, actor: Pk): (r: (Outcome<Error>, Tables))
    ensures pk !in Ids(t.costumers, CostumerKey) ==> r == (Fail(NotFound), t)
    ensures r.0.Fail? ==> r.1 == t
    ensures Valid(t) ==> Valid(r.1)
  {
    match Find(t.costumers, CostumerKey, pk)
    case None => (Fail(NotFound), t)
    case Some(i) =>
      var stored := t.costumers[i];
      SaveCostumerSpec(t, c.(id := pk, createdBy := stored.createdBy, lastUpdatedBy := stored.lastUpdatedBy))
  }

  lemma CostumerUpdateKeepsLastUpdatedBy(t: Tables, pk: Pk, c: Costumer, actor: Pk, i: nat)
    requires Valid(t) && i < |t.costumers| && t.costumers[i].id == pk
    ensures var r := CostumerUpdateSpec(t, pk, c, actor);
      r.0.Pass? ==> (|r.1.costumers| == |t.costumers|
        && r.1.costumers[i].lastUpdatedBy == t.costumers[i].lastUpdatedBy
        && r.1.costumers[i].createdBy == t.costumers[i].createdBy)
    ensures CostumerUpdateSpec(t, pk, c, actor) == CostumerUpdateSpec(t, pk, c, pk)
  {
    FindUnique(t.costumers, CostumerKey, i);
    var row := c.(id := pk, createdBy := t.costumers[i].createdBy, lastUpdatedBy := t.costumers[i].lastUpdatedBy);
    UpsertAt(t.costumers, CostumerKey, i, CostumerSaveForm(row));
  }

  /** A costumer update runs full_clean on the sent fields under the stored key
      and audit fields, and on a pass rewrites exactly that costumer's row with
      the saved form of those fields. */
  lemma CostumerUpdateEffect(t: Tables, pk: Pk, c: Costumer, actor: Pk, i: nat)
    requires Unique(Ids(t.costumers, CostumerKey)) && i < |t.costumers| && t.costumers[i].id == pk
    ensures var row := c.(id := pk, createdBy := t.costumers[i].createdBy, lastUpdatedBy := t.costumers[i].lastUpdatedBy);
      var r := CostumerUpdateSpec(t, pk, c, actor);
      && r.0 == CostumerFullClean(row)
      && (r.0.Pass? ==> r.1 == t.(costumers := t.costumers[i := CostumerSaveForm(row)]))
  {
    FindUnique(t.costumers, CostumerKey, i);
    var row := c.(id := pk, createdBy := t.costumers[i].createdBy, lastUpdatedBy := t.costumers[i].lastUpdatedBy);
    UpsertAt(t.costumers, CostumerKey, i, CostumerSaveForm(row));
  }

  method CostumerPerformCreate(db: Db, c: Costumer, actor: Pk) returns (r: Outcome<Error>)
    modifies db
    ensures (r, db.t) == CostumerCreateSpec(old(db.t), c, actor)
  {
    var row := c.(id := NextId(db.t.costumers, CostumerKey), createdBy := Some(actor), lastUpdatedBy := Some(actor));
    r := SaveCostumer(db, row);
  }

  method CostumerPerformUpdate(db: Db, pk: Pk, c: Costumer, actor: Pk) returns (r: Outcome<Error>)
    modifies db
    ensures (r, db.t) == CostumerUpdateSpec(old(db.t), pk, c, actor)
  {
    var i := Find(db.t.costumers, CostumerKey, pk);
    if i.None? {
      return Fail(NotFound);
    }
    var stored := db.t.costumers[i.value];
    var row := c.(id := pk, createdBy := stored.createdBy, lastUpdatedBy := stored.lastUpdatedBy);
    r := SaveCostumer(db, row);
  }
}
