/** app/core/models.py: the records, their field validators, the derived fields
    computed by the custom save() methods, the user manager, and the store the
    views read and write. */
module CoreModels {
  import opened Common
  import opened Text
  import opened Table

  // ---------------------------------------------------------------------------
  // percent_validator and the upload-path builders
  // ---------------------------------------------------------------------------

  /** percent_validator: a percentage must lie in 0..100 inclusive. */
  function PercentValidator(data: int): (r: Outcome<Violation>)
    ensures r.Pass? <==> 0 <= data <= 100
    ensures r.Fail? ==> r.error == InvalidShareholder
  {
    if data > 100 || data < 0 then Fail(InvalidShareholder) else Pass
  }

  lemma PercentValidatorBounds()
    ensures PercentValidator(0).Pass? && PercentValidator(100).Pass?
    ensures PercentValidator(-1).Fail? && PercentValidator(101).Fail?
  {
  }

  const UserUploadDir: string := "uploads/user/"
  const ContractUploadDir: string := "uploads/contracts/"

  predicate IsHexDigit(c: char) {
    ('0' <= c <= '9') || ('a' <= c <= 'f') || ('A' <= c <= 'F')
  }

  /** The text of a uuid4: 36 hex digits and hyphens. */
  predicate IsUuidText(u: string) {
    |u| == 36 && forall i :: 0 <= i < |u| ==> IsHexDigit(u[i]) || u[i] == '-'
  }

  /** os.path.join of two POSIX path parts. */
  function PathJoin(a: string, b: string): string {
    if b != [] && b[0] == '/' then b
    else if a == [] || a[|a| - 1] == '/' then a + b
    else a + "/" + b
  }

  /** file_name.split('.')[-1]: the text after the last dot, or the whole name. */
  function Extension(fileName: string): (ext: string)
    ensures '.' !in ext
    ensures ext == fileName || (|ext| < |fileName| && fileName[|fileName| - |ext| - 1..] == "." + ext)
  {
    LastPartSuffix(fileName, '.');
    var parts := Split(fileName, '.');
    parts[|parts| - 1]
  }

  /** profile_image_path: the upload goes to uploads/user/ under a fresh uuid,
      keeping only the original extension. */
  function ProfileImagePath(uuid: string, fileName: string): (path: string)
    ensures IsUuidText(uuid) ==> path == UserUploadDir + uuid + "." + Extension(fileName)
  {
    PathJoin(UserUploadDir, uuid + "." + Extension(fileName))
  }

  /** contract_file_path: the same rule under uploads/contracts/. */
  function ContractFilePath(uuid: string, fileName: string): (path: string)
    ensures IsUuidText(uuid) ==> path == ContractUploadDir + uuid + "." + Extension(fileName)
  {
    PathJoin(ContractUploadDir, uuid + "." + Extension(fileName))
  }

  lemma ExtensionExample()
    ensures Extension("MyImage.jpg") == "jpg"
  {
    assert Split("MyImage.jpg", '.') == ["MyImage", "jpg"] by {
      SplitWithoutSeparator("jpg", '.');
      SplitAtFirst("MyImage", '.', "jpg");
      assert "MyImage" + ['.'] + "jpg" == "MyImage.jpg";
    }
  }

  // ---------------------------------------------------------------------------
  // Records
  // ---------------------------------------------------------------------------

  /** A stored credential: the hash of a raw password, or Django's unusable marker. */
  datatype Credential = Unusable | Hashed(raw: string)

  /** set_password: None yields an unusable password. */
  function SetPassword(password: Option<string>): Credential {
    match password
    case None => Unusable
    case Some(p) => Hashed(p)
  }

  predicate CheckPassword(c: Credential, raw: string) {
    c == Hashed(raw)
  }

  datatype User = User(
    id: Pk, username: string, name: Option<string>, title: Option<string>,
    address: Option<string>, phone: Option<string>, postalCode: Option<string>,
    birthDate: Option<Date>, email: string, nationality: Option<Pk>,
    isStaff: bool, isActive: bool, isSuperuser: bool, createdBy: Option<Pk>,
    password: Credential, lastLogin: Option<DateTime>)

  /** The keyword arguments create_user passes through to the User constructor. */
  datatype UserFields = UserFields(
    name: Option<string>, title: Option<string>, address: Option<string>,
    phone: Option<string>, postalCode: Option<string>, birthDate: Option<Date>,
    nationality: Option<Pk>, isStaff: bool, isActive: bool, isSuperuser: bool,
    createdBy: Option<Pk>)

  /** The field defaults of User (and PermissionsMixin's is_superuser). */
  const DefaultUserFields: UserFields :=
    UserFields(None, Some("BTC Admin"), None, None, None, None, None, false, true, false, None)

  datatype Country = Country(
    id: Pk, name: string, code: Option<string>, abreviation: string,
    isCovered: bool, createdBy: Pk)

  datatype VirtualService = VirtualService(
    id: Pk, name: string, price: Option<real>, cost: Option<real>,
    availability: bool, createdBy: Option<Pk>)

  datatype GoalStatus = Accepted | Rejected | Waiting | Pending {
    /** The stored choice value. */
    function Code(): string {
      match this
      case Accepted => "A"
      case Rejected => "R"
      case Waiting => "W"
      case Pending => "P"
    }
    function Display(): string {
      match this
      case Accepted => "Accepted"
      case Rejected => "Rejected"
      case Waiting => "In Waiting Queue"
      case Pending => "Pending"
    }
  }

  datatype MarketingGoal = MarketingGoal(
    id: Pk, tradingName: string, businessField: string, status: GoalStatus,
    createdBy: Option<Pk>, lastUpdate: Option<Pk>)

  datatype POSCompany = POSCompany(id: Pk, name: string, serialNumberLength: int, createdBy: Option<Pk>)

  datatype PosModel = PosModel(
    id: Pk, name: string, company: Pk, hardwareCost: Option<real>,
    softwareCost: Option<real>, price: Option<real>, createdBy: Option<Pk>)

  datatype PosType = Desktop | Mobile | Portable

  datatype POS = POS(
    id: Pk, serialNumber: string, posType: PosType, model: Pk, note: Option<string>,
    ownership: bool, isActive: bool, status: bool, createdBy: Option<Pk>)

  datatype Costumer = Costumer(
    id: Pk, tradingName: string, legalName: string, legalEntity: string,
    country: Option<Pk>, registeredCountry: Option<Pk>, directorNationality: Option<Pk>,
    businessBankName: string, partnerName: Option<string>, partnerAddress: Option<string>,
    partnerNationality: Option<Pk>, shareholder: Option<int>,
    createdBy: Option<Pk>, lastUpdatedBy: Option<Pk>)

  datatype TradingAddress = TradingAddress(id: Pk, address: string, costumer: Pk)

  datatype Contract = Contract(
    id: Pk, costumer: Pk, faceToFaceSaled: int, liveDate: Date, endDate: Date, createdBy: Option<Pk>)

  datatype ContractPOS = ContractPOS(
    id: Pk, contract: Pk, pos: Pk, price: real, hardwareCost: real, softwareCost: real,
    createdBy: Option<Pk>)

  datatype ContractService = ContractService(
    id: Pk, contract: Pk, service: Pk, price: real, cost: real, createdBy: Option<Pk>)

  function UserKey(u: User): Pk { u.id }
  function CountryKey(c: Country): Pk { c.id }
  function ServiceKey(s: VirtualService): Pk { s.id }
  function GoalKey(g: MarketingGoal): Pk { g.id }
  function CompanyKey(c: POSCompany): Pk { c.id }
  function PosModelKey(m: PosModel): Pk { m.id }
  function PosKey(p: POS): Pk { p.id }
  function CostumerKey(c: Costumer): Pk { c.id }
  function TradingAddressKey(a: TradingAddress): Pk { a.id }
  function ContractKey(c: Contract): Pk { c.id }
  function ContractPosKey(c: ContractPOS): Pk { c.id }
  function ContractServiceKey(c: ContractService): Pk { c.id }

  // ---------------------------------------------------------------------------
  // The store
  // ---------------------------------------------------------------------------

  /** Every table, each in queryset order. */
  datatype Tables = Tables(
    users: seq<User>, countries: seq<Country>, services: seq<VirtualService>,
    goals: seq<MarketingGoal>, companies: seq<POSCompany>, posModels: seq<PosModel>,
    poses: seq<POS>, costumers: seq<Costumer>, tradingAddresses: seq<TradingAddress>,
    contracts: seq<Contract>, contractPoses: seq<ContractPOS>,
    contractServices: seq<ContractService>)

  /** The database the views work on. */
  class Db {
    var t: Tables

    constructor (init: Tables)
      ensures t == init
    {
      t := init;
    }
  }

  predicate KeysUnique(t: Tables) {
    && Unique(Ids(t.users, UserKey))
    && Unique(Ids(t.countries, CountryKey))
    && Unique(Ids(t.services, ServiceKey))
    && Unique(Ids(t.goals, GoalKey))
    && Unique(Ids(t.companies, CompanyKey))
    && Unique(Ids(t.posModels, PosModelKey))
    && Unique(Ids(t.poses, PosKey))
    && Unique(Ids(t.costumers, CostumerKey))
    && Unique(Ids(t.tradingAddresses, TradingAddressKey))
    && Unique(Ids(t.contracts, ContractKey))
    && Unique(Ids(t.contractPoses, ContractPosKey))
    && Unique(Ids(t.contractServices, ContractServiceKey))
  }

  /** User.username is unique=True. */
  predicate UniqueUsernames(users: seq<User>) {
    forall i, j :: 0 <= i < j < |users| ==> users[i].username != users[j].username
  }

  /** The non-nullable foreign keys the modelled rules follow (all
      on_delete=CASCADE) point at existing rows. Country.created_by is not
      tracked: no modelled rule reads it. */
  predicate References(t: Tables) {
    && (forall k :: 0 <= k < |t.posModels| ==> t.posModels[k].company in Ids(t.companies, CompanyKey))
    && (forall k :: 0 <= k < |t.poses| ==> t.poses[k].model in Ids(t.posModels, PosModelKey))
    && (forall k :: 0 <= k < |t.tradingAddresses| ==>
          t.tradingAddresses[k].costumer in Ids(t.costumers, CostumerKey))
    && (forall k :: 0 <= k < |t.contracts| ==> t.contracts[k].costumer in Ids(t.costumers, CostumerKey))
    && (forall k :: 0 <= k < |t.contractPoses| ==>
          t.contractPoses[k].contract in Ids(t.contracts, ContractKey)
          && t.contractPoses[k].pos in Ids(t.poses, PosKey))
    && (forall k :: 0 <= k < |t.contractServices| ==>
          t.contractServices[k].contract in Ids(t.contracts, ContractKey)
          && t.contractServices[k].service in Ids(t.services, ServiceKey))
  }

  /** Every stored country went through Country.save. */
  predicate CountriesSaved(countries: seq<Country>) {
    forall k :: 0 <= k < |countries| ==> CountrySaveForm(countries[k]) == countries[k]
  }

  /** What the database guarantees of every reachable state. */
  predicate Valid(t: Tables) {
    KeysUnique(t) && UniqueUsernames(t.users) && References(t) && CountriesSaved(t.countries)
  }

  // ---------------------------------------------------------------------------
  // UserManager.create_user / create_superuser and User.save
  // ---------------------------------------------------------------------------

  /** No other user (another primary key) holds this username. */
  predicate UsernameFree(users: seq<User>, username: string, id: Pk) {
    forall k :: 0 <= k < |users| ==> users[k].id == id || users[k].username != username
  }

  /** User.save: the unique username constraint, then the row is written. */
  function SaveUserSpec(t: Tables, u: User): (r: (Outcome<Error>, Tables))
    ensures r.0.Pass? <==> UsernameFree(t.users, u.username, u.id)
    ensures r.0.Pass? ==> r.1 == t.(users := Upsert(t.users, UserKey, u))
    ensures r.0.Fail? ==> r.0.error == IntegrityError && r.1 == t
  {
    if UsernameFree(t.users, u.username, u.id) then (Pass, t.(users := Upsert(t.users, UserKey, u)))
    else (Fail(IntegrityError), t)
  }

  /** A save of a user keeps the store consistent. */
  lemma SaveUserValid(t: Tables, u: User)
    ensures Valid(t) ==> Valid(SaveUserSpec(t, u).1)
  {
    if UsernameFree(t.users, u.username, u.id) {
      SaveUserKeepsUsernamesUnique(t.users, u);
      UpsertIdsWhenUnique(t.users, UserKey, u);
    }
  }

  lemma SaveUserKeepsUsernamesUnique(users: seq<User>, u: User)
    requires UsernameFree(users, u.username, u.id)
    ensures Unique(Ids(users, UserKey)) && UniqueUsernames(users) ==> UniqueUsernames(Upsert(users, UserKey, u))
  {
    if !(Unique(Ids(users, UserKey)) && UniqueUsernames(users)) {
      return;
    }
    var ids := Ids(users, UserKey);
    match Find(users, UserKey, u.id)
    case Some(i) =>
      var s := users[i := u];
      forall a, b | 0 <= a < b < |s| ensures s[a].username != s[b].username {
        if a == i {
          assert ids[b] == users[b].id && ids[i] == users[i].id;
        } else if b == i {
          assert ids[a] == users[a].id && ids[i] == users[i].id;
        }
      }
    case None =>
  }

  /** The User row create_user builds (email stored as given, None as ''). */
  function NewUser(id: Pk, username: string, email: Option<string>, password: Option<string>, f: UserFields): (u: User)
    ensures u.id == id && u.username == username && u.lastLogin.None?
    ensures email.None? ==> u.email == ""
    ensures email.Some? ==> u.email == email.value
    ensures password.Some? ==> CheckPassword(u.password, password.value)
    ensures password.None? ==> forall raw :: !CheckPassword(u.password, raw)
    ensures u.name == f.name && u.title == f.title && u.nationality == f.nationality
    ensures u.isStaff == f.isStaff && u.isActive == f.isActive && u.isSuperuser == f.isSuperuser
    ensures u.createdBy == f.createdBy
    ensures u.address == f.address && u.phone == f.phone && u.postalCode == f.postalCode && u.birthDate == f.birthDate
  {
    User(id, username, f.name, f.title, f.address, f.phone, f.postalCode, f.birthDate,
         match email case None => "" case Some(e) => e,
         f.nationality, f.isStaff, f.isActive, f.isSuperuser, f.createdBy,
         SetPassword(password), None)
  }

  /** create_user: a missing or empty username is a ValueError; otherwise a new
      user row with the given fields and password is appended. */
  function CreateUserSpec(t: Tables, username: Option<string>, email: Option<string>,
                          password: Option<string>, extra: UserFields): (r: (Result<Pk, Error>, Tables))
    ensures r.0 == Err(ValueError) <==> username.None? || username.value == []
    ensures r.0.Err? ==> r.1 == t
    ensures r.0.Ok? <==> username.Some? && username.value != [] && UsernameFree(t.users, username.value, NextId(t.users, UserKey))
    ensures r.0.Ok? ==> r.0.value !in Ids(t.users, UserKey)
    ensures r.0.Ok? ==> r.1 == t.(users := t.users + [NewUser(r.0.value, username.value, email, password, extra)])
    ensures Valid(t) ==> Valid(r.1)
  {
    if username.None? || username.value == [] then (Err(ValueError), t)
    else
      var id := NextId(t.users, UserKey);
      var u := NewUser(id, username.value, email, password, extra);
      SaveUserValid(t, u);
      var (o, t') := SaveUserSpec(t, u);
      if o.Fail? then (Err(o.error), t) else (Ok(id), t')
  }

  method CreateUser(db: Db, username: Option<string>, email: Option<string>,
                    password: Option<string>, extra: UserFields) returns (r: Result<Pk, Error>)
    requires Valid(db.t)
    modifies db
    ensures (r, db.t) == CreateUserSpec(old(db.t), username, email, password, extra)
  {
    if username.None? || username.value == [] {
      return Err(ValueError);
    }
    var id := NextId(db.t.users, UserKey);
    var user := NewUser(id, username.value, email, password, extra);
    var saved := SaveUser(db, user);
    if saved.Fail? {
      return Err(saved.error);
    }
    r := Ok(id);
  }

  method SaveUser(db: Db, u: User) returns (r: Outcome<Error>)
    modifies db
    ensures (r, db.t) == SaveUserSpec(old(db.t), u)
  {
    if !UsernameFree(db.t.users, u.username, u.id) {
      return Fail(IntegrityError);
    }
    db.t := db.t.(users := Upsert(db.t.users, UserKey, u));
    r := Pass;
  }

  /** create_superuser: create_user, then is_staff and is_superuser set and saved again. */
  function CreateSuperuserSpec(t: Tables, username: Option<string>, password: Option<string>,
                               email: Option<string>, extra: UserFields): (r: (Result<Pk, Error>, Tables))
    ensures r.0.Err? <==> CreateUserSpec(t, username, email, password, extra).0.Err?
    ensures r.0.Err? ==> r.1 == t
    ensures r.0.Ok? ==> r.0 == CreateUserSpec(t, username, email, password, extra).0
    ensures r.0.Ok? ==> r.1 == t.(users := t.users + [NewUser(r.0.value, username.value, email, password, extra)
                                         .(isStaff := true, isSuperuser := true)])
    ensures Valid(t) ==> Valid(r.1)
  {
    var (c, t1) := CreateUserSpec(t, username, email, password, extra);
    if c.Err? then (c, t)
    else
      var u := NewUser(c.value, username.value, email, password, extra);
      PromoteAppended(t, u);
      SaveUserValid(t1, u.(isStaff := true, isSuperuser := true));
      var (o, t2) := SaveUserSpec(t1, u.(isStaff := true, isSuperuser := true));
      (c, t2)
  }

  /** The second save of create_superuser: the appended row, now staff and
      superuser, is saved over itself. */
  lemma PromoteAppended(t: Tables, u: User)
    requires u.id !in Ids(t.users, UserKey) && UsernameFree(t.users, u.username, u.id)
    ensures var staff := u.(isStaff := true, isSuperuser := true);
      SaveUserSpec(t.(users := t.users + [u]), staff) == (Pass, t.(users := t.users + [staff]))
  {
    var s := t.users + [u];
    var staff := u.(isStaff := true, isSuperuser := true);
    forall k | 0 <= k < |s| ensures s[k].id == staff.id || s[k].username != staff.username {
      if k < |t.users| {
        assert s[k] == t.users[k];
      }
    }
    FindAppended(t.users, UserKey, u);
    assert s[|t.users| := staff] == t.users + [staff];
  }

  method CreateSuperuser(db: Db, username: Option<string>, password: Option<string>,
                         email: Option<string>, extra: UserFields) returns (r: Result<Pk, Error>)
    requires Valid(db.t)
    modifies db
    ensures (r, db.t) == CreateSuperuserSpec(old(db.t), username, password, email, extra)
  {
    r := CreateUser(db, username, email, password, extra);
    if r.Err? {
      return;
    }
    var user := db.t.users[|db.t.users| - 1];
    PromoteAppended(old(db.t), user);
    user := user.(isStaff := true, isSuperuser := true);
    var saved := SaveUser(db, user);
  }

  // ---------------------------------------------------------------------------
  // Country.save
  // ---------------------------------------------------------------------------

  /** Country.save: a supplied abbreviation is kept; an empty one becomes the
      first three characters of the name (all of it when shorter), upper-cased. */
  function CountrySaveForm(c: Country): (r: Country)
    ensures r == c.(abreviation := r.abreviation)
    ensures c.abreviation != [] ==> r.abreviation == c.abreviation
    ensures c.abreviation == [] ==>
      && |r.abreviation| == (if |c.name| < 3 then |c.name| else 3)
      && forall i :: 0 <= i < |r.abreviation| ==> r.abreviation[i] == UpperChar(c.name[i])
  {
    if c.abreviation != [] then c else c.(abreviation := Upper(Prefix(c.name, 3)))
  }

  lemma CountrySaveIdempotent(c: Country)
    ensures CountrySaveForm(CountrySaveForm(c)) == CountrySaveForm(c)
  {
  }

  lemma CountryGermanyExample(c: Country)
    requires c.name == "Germany" && c.abreviation == ""
    ensures CountrySaveForm(c).abreviation == "GER"
  {
    var a := CountrySaveForm(c).abreviation;
    assert |a| == 3 && a[0] == 'G' && a[1] == 'E' && a[2] == 'R';
  }

  method SaveCountry(db: Db, c: Country)
    requires Valid(db.t)
    modifies db
    ensures db.t == old(db.t).(countries := Upsert(old(db.t).countries, CountryKey, CountrySaveForm(c)))
    ensures Valid(db.t)
  {
    var saved := c;
    if saved.abreviation == [] {
      saved := saved.(abreviation := Upper(Prefix(saved.name, 3)));
    }
    UpsertIds(db.t.countries, CountryKey, saved);
    CountrySaveIdempotent(c);
    UpsertKeepsSaved(db.t.countries, saved);
    db.t := db.t.(countries := Upsert(db.t.countries, CountryKey, saved));
  }

  lemma UpsertKeepsSaved(countries: seq<Country>, c: Country)
    requires CountriesSaved(countries) && CountrySaveForm(c) == c
    ensures CountriesSaved(Upsert(countries, CountryKey, c))
  {
  }

  // ---------------------------------------------------------------------------
  // MarketingGoal
  // ---------------------------------------------------------------------------

  /** A new marketing goal; without an explicit status it waits ("W"). */
  function NewMarketingGoal(id: Pk, tradingName: string, businessField: string,
                            status: Option<GoalStatus>, actor: Option<Pk>): (g: MarketingGoal)
    ensures status.None? ==> g.status.Code() == "W" && g.status.Display() == "In Waiting Queue"
    ensures status.Some? ==> g.status == status.value
    ensures g.id == id && g.tradingName == tradingName && g.businessField == businessField
  {
    MarketingGoal(id, tradingName, businessField,
                  match status case None => Waiting case Some(s) => s, actor, actor)
  }

  // ---------------------------------------------------------------------------
  // POS.clean / POS.save
  // ---------------------------------------------------------------------------

  /** model.company.serial_number_length, when the model and its company exist. */
  function SerialNumberLength(t: Tables, model: Pk): (n: Option<int>)
    ensures n.Some? ==> model in Ids(t.posModels, PosModelKey)
  {
    match Get(t.posModels, PosModelKey, model)
    case None => None
    case Some(m) =>
      match Get(t.companies, CompanyKey, m.company)
      case None => None
      case Some(c) => Some(c.serialNumberLength)
  }

  /** POS.full_clean: clean_fields refuses a blank serial_number, then POS.clean
      requires the serial number to be exactly as long as its company says;
      both errors are collected. A missing model or company is a lookup error. */
  function PosClean(t: Tables, p: POS): (r: Outcome<Error>)
    ensures r.Pass? <==> p.serialNumber != [] && SerialNumberLength(t, p.model) == Some(|p.serialNumber|)
    ensures r.Fail? && SerialNumberLength(t, p.model).Some? ==> r.error.ValidationError?
    ensures r.Fail? && SerialNumberLength(t, p.model).Some? ==>
      (SerialNumberLengthNotValid in r.error.violations <==> SerialNumberLength(t, p.model) != Some(|p.serialNumber|))
    ensures r.Fail? && SerialNumberLength(t, p.model).Some? ==>
      (BlankField("serial_number") in r.error.violations <==> p.serialNumber == [])
  {
    match SerialNumberLength(t, p.model)
    case None => Fail(NotFound)
    case Some(n) =>
      var errs := (if p.serialNumber == [] then [BlankField("serial_number")] else [])
        + (if |p.serialNumber| != n then [SerialNumberLengthNotValid] else []);
      if errs == [] then Pass else Fail(ValidationError(errs))
  }

  /** The gate looks at the serial number and the model only. */
  lemma PosCleanIgnoresFlags(t: Tables, p: POS, q: POS)
    requires p.serialNumber == q.serialNumber && p.model == q.model
    ensures PosClean(t, p) == PosClean(t, q)
  {
  }

  lemma PosCleanExample(t: Tables, p: POS, q: POS)
    requires SerialNumberLength(t, p.model) == Some(8) && q.model == p.model
    requires p.serialNumber == "12345678" && q.serialNumber == "1234567890"
    ensures PosClean(t, p).Pass? && PosClean(t, q) == Fail(ValidationError([SerialNumberLengthNotValid]))
  {
    assert |q.serialNumber| == 10 && q.serialNumber != [];
    var none: seq<Violation> := [];
    assert none + [SerialNumberLengthNotValid] == [SerialNumberLengthNotValid];
  }

  /** POS.save: full_clean first; the row is written only when it passes. */
  function SavePosSpec(t: Tables, p: POS): (r: (Outcome<Error>, Tables))
    ensures r.0 == PosClean(t, p)
    ensures r.0.Pass? ==> r.1 == t.(poses := Upsert(t.poses, PosKey, p))
    ensures r.0.Fail? ==> r.1 == t
  {
    var v := PosClean(t, p);
    if v.Pass? then (v, t.(poses := Upsert(t.poses, PosKey, p)))
    else (v, t)
  }

  /** A save of a POS keeps the store consistent. */
  lemma SavePosValid(t: Tables, p: POS)
    ensures Valid(t) ==> Valid(SavePosSpec(t, p).1)
  {
    if Valid(t) && PosClean(t, p).Pass? {
      assert p.model in Ids(t.posModels, PosModelKey);
      UpsertIds(t.poses, PosKey, p);
      UpsertKeepsModels(t.poses, p, Ids(t.posModels, PosModelKey));
    }
  }

  /** A saved POS whose model exists keeps every POS row's model existing. */
  lemma UpsertKeepsModels(s: seq<POS>, p: POS, models: seq<Pk>)
    requires forall k :: 0 <= k < |s| ==> s[k].model in models
    requires p.model in models
    ensures forall k :: 0 <= k < |Upsert(s, PosKey, p)| ==> Upsert(s, PosKey, p)[k].model in models
  {
    match Find(s, PosKey, p.id)
    case Some(i) =>
      assert Upsert(s, PosKey, p) == s[i := p];
    case None =>
      assert Upsert(s, PosKey, p) == s + [p];
  }

  method SavePos(db: Db, p: POS) returns (r: Outcome<Error>)
    modifies db
    ensures (r, db.t) == SavePosSpec(old(db.t), p)
  {
    r := PosClean(db.t, p);
    if r.Pass? {
      db.t := db.t.(poses := Upsert(db.t.poses, PosKey, p));
    }
  }

  // ---------------------------------------------------------------------------
  // Costumer.clean / Costumer.save
  // ---------------------------------------------------------------------------

  const LegalEntityChoices: seq<string> := [
    "Sole Trader", "Partnership", "Private Limited Company", "Public Limited Company",
    "Limited Liability Partnership", "Charity", "Other"]

  /** The field checks full_clean runs before clean(), for the modelled fields,
      in declaration order: required texts, the legal_entity choice, shareholder. */
  function CostumerFieldErrors(c: Costumer): (errs: seq<Violation>)
    ensures errs == [] <==>
      && c.tradingName != [] && c.legalName != [] && c.businessBankName != []
      && c.legalEntity in LegalEntityChoices
      && (c.shareholder.Some? ==> 0 <= c.shareholder.value <= 100)
  {
    (if c.tradingName == [] then [BlankField("trading_name")] else [])
    + (if c.legalName == [] then [BlankField("legal_name")] else [])
    + (if c.legalEntity == [] then [BlankField("legal_entity")]
       else if c.legalEntity !in LegalEntityChoices then [InvalidChoice("legal_entity")] else [])
    + (if c.businessBankName == [] then [BlankField("business_bank_name")] else [])
    + (match c.shareholder
       case None => []
       case Some(x) => if PercentValidator(x).Fail? then [InvalidShareholder] else [])
  }

  /** Costumer.clean: the bank account must be in the legal name. */
  function CostumerClean(c: Costumer): (r: Outcome<Violation>)
    ensures r.Pass? <==> c.businessBankName == c.legalName
  {
    if c.businessBankName != c.legalName then Fail(BankNameNotLegalName) else Pass
  }

  /** full_clean: every field error and the clean() error, collected. */
  function CostumerFullClean(c: Costumer): (r: Outcome<Error>)
    ensures r.Pass? <==> CostumerFieldErrors(c) == [] && c.businessBankName == c.legalName
    ensures r.Fail? ==> r.error.ValidationError?
    ensures r.Fail? && c.businessBankName != c.legalName ==> BankNameNotLegalName in r.error.violations
  {
    var errs := CostumerFieldErrors(c) + (if CostumerClean(c).Fail? then [BankNameNotLegalName] else []);
    if errs == [] then Pass else Fail(ValidationError(errs))
  }

  /** The partner clearing of Costumer.save, keyed on the value "ST" as written. */
  function CostumerSaveForm(c: Costumer): (r: Costumer)
    ensures r.(partnerName := c.partnerName, partnerAddress := c.partnerAddress,
               partnerNationality := c.partnerNationality, shareholder := c.shareholder) == c
    ensures c.legalEntity != "ST" ==> r == c
  {
    if c.legalEntity == "ST" then
      c.(partnerName := None, partnerAddress := None, partnerNationality := None, shareholder := None)
    else c
  }

  /** The clearing touches the four partner fields and nothing else. */
  lemma CostumerSaveFormFrame(c: Costumer)
    ensures CostumerSaveForm(c).(partnerName := c.partnerName, partnerAddress := c.partnerAddress,
                                 partnerNationality := c.partnerNationality, shareholder := c.shareholder) == c
    ensures c.legalEntity == "ST" ==>
      var r := CostumerSaveForm(c);
      r.partnerName.None? && r.partnerAddress.None? && r.partnerNationality.None? && r.shareholder.None?
  {
  }

  /** "ST" is not a legal_entity choice, so any costumer that passes full_clean
      is stored with its partner fields exactly as submitted. */
  lemma ValidatedCostumerNeverCleared(c: Costumer)
    requires CostumerFullClean(c).Pass?
    ensures CostumerSaveForm(c) == c
  {
    assert "ST" !in LegalEntityChoices;
  }

  lemma SoleTraderKeepsPartnerExample(c: Costumer)
    requires c.tradingName == "t" && c.legalName == "n" && c.businessBankName == "n"
    requires c.legalEntity == "Sole Trader" && c.partnerName == Some("p") && c.shareholder == Some(40)
    ensures CostumerFullClean(c).Pass? && CostumerSaveForm(c).partnerName == Some("p")
  {
    assert c.legalEntity == LegalEntityChoices[0];
  }

  /** The evident intent: a Sole Trader never keeps partner details. */
  function CostumerSaveFormIntended(c: Costumer): (r: Costumer)
    ensures r.(partnerName := c.partnerName, partnerAddress := c.partnerAddress,
               partnerNationality := c.partnerNationality, shareholder := c.shareholder) == c
    ensures c.legalEntity == "Sole Trader" ==>
      r.partnerName.None? && r.partnerAddress.None? && r.partnerNationality.None? && r.shareholder.None?
    ensures c.legalEntity != "Sole Trader" ==> r == c
  {
    if c.legalEntity == "Sole Trader" then
      c.(partnerName := None, partnerAddress := None, partnerNationality := None, shareholder := None)
    else c
  }

  /** With the intended key the clearing is reachable: a validated Sole Trader
      with partner details is stored without them. */
  lemma IntendedClearingExample(c: Costumer)
    requires c.tradingName == "t" && c.legalName == "n" && c.businessBankName == "n"
    requires c.legalEntity == "Sole Trader" && c.partnerName == Some("p") && c.shareholder == Some(40)
    ensures CostumerFullClean(c).Pass?
    ensures CostumerSaveFormIntended(c) != c && CostumerSaveFormIntended(c).partnerName.None?
  {
    assert c.legalEntity == LegalEntityChoices[0];
  }

  /** The intended clearing keeps a validated costumer valid and is idempotent. */
  lemma IntendedClearingKeepsValid(c: Costumer)
    requires CostumerFullClean(c).Pass?
    ensures CostumerFullClean(CostumerSaveFormIntended(c)).Pass?
    ensures CostumerSaveFormIntended(CostumerSaveFormIntended(c)) == CostumerSaveFormIntended(c)
  {
  }

  /** Costumer.save: full_clean on the submitted fields, then the clearing, then the write. */
  function SaveCostumerSpec(t: Tables, c: Costumer): (r: (Outcome<Error>, Tables))
    ensures r.0 == CostumerFullClean(c)
    ensures r.0.Pass? ==> r.1 == t.(costumers := Upsert(t.costumers, CostumerKey, CostumerSaveForm(c)))
    ensures r.0.Fail? ==> r.1 == t
    ensures Valid(t) ==> Valid(r.1)
  {
    var v := CostumerFullClean(c);
    if v.Pass? then
      UpsertIdsWhenUnique(t.costumers, CostumerKey, CostumerSaveForm(c));
      (v, t.(costumers := Upsert(t.costumers, CostumerKey, CostumerSaveForm(c))))
    else (v, t)
  }

  method SaveCostumer(db: Db, c: Costumer) returns (r: Outcome<Error>)
    modifies db
    ensures (r, db.t) == SaveCostumerSpec(old(db.t), c)
  {
    r := CostumerFullClean(c);
    if r.Fail? {
      return;
    }
    var cleared := c;
    if cleared.legalEntity == "ST" {
      cleared := cleared.(partnerName := None, partnerAddress := None,
                          partnerNationality := None, shareholder := None);
    }
    db.t := db.t.(costumers := Upsert(db.t.costumers, CostumerKey, cleared));
  }
}
